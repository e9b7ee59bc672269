/** What Close promises, and what it costs (sink/sink.go, Close, offer and the drain of run).

Close reads `started` under the mutex, releases it, closes `done` and waits for the
writer only if it read true.  A record is stranded when it sits in the channel and no
goroutine is left to take it out. */
module SinkShutdown {
  import opened Bands
  import Records
  import opened History
  import opened SinkProtocol

  // ---- Runs in pieces ------------------------------------------------------------------------

  lemma {:induction false} ExecConcat(c: Config, s: State, a: seq<Event>, b: seq<Event>)
    ensures Exec(c, s, a + b) == if Exec(c, s, a).Some? then Exec(c, Exec(c, s, a).value, b) else None
    decreases |b|
  {
    if |b| == 0 {
      assert a + b == a;
    } else {
      assert (a + b)[..|a + b| - 1] == a + b[..|b| - 1];
      ExecConcat(c, s, a, b[..|b| - 1]);
    }
  }

  lemma ExecOne(c: Config, s: State, e: Event)
    requires Enabled(s, e)
    ensures Exec(c, s, [e]) == Some(Next(c, s, e))
  {
    assert [e][..0] == [];
  }

  lemma ExecCons(c: Config, s: State, e: Event, rest: seq<Event>)
    requires Enabled(s, e)
    ensures Exec(c, s, [e] + rest) == Exec(c, Next(c, s, e), rest)
  {
    ExecOne(c, s, e);
    ExecConcat(c, s, [e], rest);
  }

  lemma ExecSnoc(c: Config, s: State, events: seq<Event>, mid: State, e: Event)
    requires Exec(c, s, events) == Some(mid) && Enabled(mid, e)
    ensures Exec(c, s, events + [e]) == Some(Next(c, mid, e))
  {
    ExecOne(c, mid, e);
    ExecConcat(c, s, events, [e]);
  }

  lemma {:induction false} RunShutdown(c: Config, s: State, more: seq<Event>, t: State)
    requires Shutdown(s) && Exec(c, s, more) == Some(t)
    ensures Shutdown(t)
    decreases |more|
  {
    if |more| > 0 {
      var m := |more| - 1;
      RunShutdown(c, s, more[..m], Exec(c, s, more[..m]).value);
      StepShutdown(c, Exec(c, s, more[..m]).value, more[m]);
    }
  }

  // ---- What is left once nobody takes records out any more ----------------------------------

  /** `done` is closed, and no writer is running or can still be launched. */
  predicate Over(s: State) {
    s.done && (s.writer.Stopped? || (s.writer.Unlaunched? && !s.starting))
  }

  lemma OverStep(c: Config, s: State, e: Event)
    requires Shutdown(s) && Over(s) && Enabled(s, e)
    ensures var t := Next(c, s, e);
      Over(t) && s.channel <= t.channel && t.past.flushed == s.past.flushed && t.written == s.written
  {}

  /** Stranded is for good: what is in the channel then stays there, and nothing is ever
      written again. */
  lemma {:induction false} StrandedForGood(c: Config, s: State, more: seq<Event>, t: State)
    requires Shutdown(s) && Over(s) && Exec(c, s, more) == Some(t)
    ensures Over(t) && s.channel <= t.channel && t.past.flushed == s.past.flushed && t.written == s.written
    decreases |more|
  {
    if |more| > 0 {
      var m := |more| - 1;
      var mid := Exec(c, s, more[..m]).value;
      StrandedForGood(c, s, more[..m], mid);
      RunShutdown(c, s, more[..m], mid);
      OverStep(c, mid, more[m]);
    }
  }

  lemma SplitAt(a: seq<Record>, b: seq<Record>, x: seq<Record>, y: seq<Record>)
    requires a + b == x + y && |b| <= |y|
    ensures var k := |y| - |b|; a == x + y[..k] && b == y[k..]
  {
    var k := |y| - |b|;
    assert (a + b)[..|a|] == a && (a + b)[|a|..] == b;
    assert (x + y)[..|a|] == x + y[..k] && (x + y)[|a|..] == y[k..];
  }

  /** Which records are left behind.  In every reachable state in which it is over:
      - if the writer ran, everything accepted before `done` closed was flushed, and the
        channel holds the last few sends made after that, each by another hook that was
        between its two selects when `done` closed;
      - if it never ran, nothing was flushed and everything accepted is still there;
      - each offer was dropped, written, refused by the store, is left in the channel, or is
        still between its selects. */
  lemma LeftBehind(c: Config, db: Db, events: seq<Event>, s: State)
    requires ValidConfig(c) && Exec(c, Init(db), events) == Some(s) && Over(s)
    ensures forall h :: h in s.past.late ==> h in s.past.straddlers && h !in s.inFlight
    ensures Distinct(s.past.late)
    ensures s.started ==>
      && |s.channel| <= |s.past.late|
      && var sent, k := RecordsOf(s.past.straddlers, s.past.late), |s.past.late| - |s.channel|;
         s.past.flushed == s.past.early + sent[..k] && s.channel == sent[k..]
    ensures !s.started ==> s.past.flushed == [] && s.channel == s.past.accepted
    ensures s.past.offered == s.dropped + s.written + s.past.rejected + |s.channel| + |s.inFlight|
    ensures s.started && s.past.straddlers == map[] ==>
      s.channel == [] && s.inFlight == map[] && s.past.flushed == s.past.accepted
  {
    RunInv(c, db, events, s);
    DrainedChannel(s);
  }

  lemma DrainedChannel(s: State)
    requires Over(s) && LateSends(s) && InOrder(s) && s.batch == []
    requires s.started == !s.writer.Unlaunched? && (!s.started ==> s.past.flushed == [])
    ensures s.started ==>
      && |s.channel| <= |s.past.late|
      && var sent, k := RecordsOf(s.past.straddlers, s.past.late), |s.past.late| - |s.channel|;
         s.past.flushed == s.past.early + sent[..k] && s.channel == sent[k..]
    ensures !s.started ==> s.channel == s.past.accepted
    ensures s.started && s.past.straddlers == map[] ==>
      s.channel == [] && s.inFlight == map[] && s.past.flushed == s.past.accepted
  {
    assert s.past.accepted == s.past.flushed + s.channel;
    if s.started {
      SplitAt(s.past.flushed, s.channel, s.past.early, RecordsOf(s.past.straddlers, s.past.late));
      if s.past.straddlers == map[] {
        NoMembers(s.past.late);
      }
    }
  }

  // ---- When a record can be stranded -----------------------------------------------------------

  ghost predicate Strands(c: Config, s: State, more: seq<Event>) {
    var t := Exec(c, s, more);
    t.Some? && Over(t.value) && t.value.channel != []
  }

  ghost predicate CanStrand(c: Config, s: State) {
    exists more :: Strands(c, s, more)
  }

  /** Nobody is left who could put a record where nobody looks. */
  ghost predicate Safe(s: State) {
    && s.done && s.inFlight == map[]
    && (!s.started || PastDrain(s.writer) ==> s.channel == [])
  }

  lemma SafeStep(c: Config, s: State, e: Event)
    requires Shutdown(s) && Safe(s) && Enabled(s, e)
    ensures Safe(Next(c, s, e))
  {}

  lemma {:induction false} SafeStays(c: Config, s: State, more: seq<Event>, t: State)
    requires Shutdown(s) && Safe(s) && Exec(c, s, more) == Some(t)
    ensures Safe(t)
    decreases |more|
  {
    if |more| > 0 {
      var m := |more| - 1;
      SafeStays(c, s, more[..m], Exec(c, s, more[..m]).value);
      RunShutdown(c, s, more[..m], Exec(c, s, more[..m]).value);
      SafeStep(c, Exec(c, s, more[..m]).value, more[m]);
    }
  }

  lemma SafeNeverStrands(c: Config, s: State)
    requires Shutdown(s) && Safe(s)
    ensures !CanStrand(c, s)
  {
    forall more ensures !Strands(c, s, more) {
      if Strands(c, s, more) {
        var t := Exec(c, s, more).value;
        SafeStays(c, s, more, t);
        RunShutdown(c, s, more, t);
      }
    }
  }

  /** How far a writer is from having stopped, apart from the records still to be taken. */
  function Phase(w: Writer): nat {
    match w
    case FlushJobs(Resume) => 6
    case FlushAttempts(Resume) => 5
    case Looping => 4
    case FlushJobs(Drain) => 5
    case FlushAttempts(Drain) => 4
    case Draining => 3
    case FlushJobs(Finish) => 2
    case FlushAttempts(Finish) => 1
    case _ => 0
  }

  /** The steps that end a sink: give up a start, see `done`, drain, flush. */
  function Ending(s: State): Event
    requires s.done && !Over(s)
  {
    match s.writer
    case Unlaunched => StartFail
    case Looping => SeeDone
    case Draining => if |s.channel| > 0 then DrainReceive else DrainEmpty
    case FlushJobs(_) => WriteJobs(true)
    case FlushAttempts(_) => WriteAttempts(true)
  }

  function Effort(s: State): nat {
    4 * |s.channel| + Phase(s.writer) + if s.starting then 1 else 0
  }

  lemma EndingStep(c: Config, s: State)
    requires Shutdown(s) && s.done && !Over(s)
    ensures Enabled(s, Ending(s))
    ensures var t := Next(c, s, Ending(s));
      && t.done && Effort(t) < Effort(s) && t.inFlight == s.inFlight
      && (!s.started || PastDrain(s.writer) ==> (!t.started || PastDrain(t.writer)) && t.channel == s.channel)
  {}

  /** Left to itself, a sink that has been closed comes to rest, with no offer completed. */
  lemma {:induction false} ComesToRest(c: Config, s: State) returns (more: seq<Event>, t: State)
    requires Shutdown(s) && s.done
    ensures Exec(c, s, more) == Some(t) && Over(t) && t.inFlight == s.inFlight
    ensures !s.started || PastDrain(s.writer) ==> t.channel == s.channel
    decreases Effort(s)
  {
    if Over(s) {
      more, t := [], s;
    } else {
      var e := Ending(s);
      EndingStep(c, s);
      StepShutdown(c, s, e);
      var rest;
      rest, t := ComesToRest(c, Next(c, s, e));
      more := [e] + rest;
      ExecCons(c, s, e, rest);
    }
  }

  lemma UnsafeStrands(c: Config, s: State)
    requires ValidConfig(c) && Shutdown(s) && s.done
    requires s.inFlight != map[] || (s.channel != [] && (!s.started || PastDrain(s.writer)))
    ensures CanStrand(c, s)
  {
    var more, t := ComesToRest(c, s);
    if t.channel != [] {
      assert Strands(c, s, more);
    } else {
      var hook :| hook in t.inFlight;
      ExecSnoc(c, s, more, t, OfferSend(hook));
      assert Strands(c, s, more + [OfferSend(hook)]);
    }
  }

  lemma StrandsLater(c: Config, s: State, e: Event)
    requires Enabled(s, e) && CanStrand(c, Next(c, s, e))
    ensures CanStrand(c, s)
  {
    var more :| Strands(c, Next(c, s, e), more);
    ExecCons(c, s, e, more);
    assert Strands(c, s, [e] + more);
  }

  /** Some record to offer. */
  const SOME_RECORD := AttemptRecord(Records.Attempt("", "", "", 0, Records.Created, "", 0, 0))

  /** Before `done` closes, an offer can always be made in time to be caught. */
  lemma {:induction false} OpenCanStrand(c: Config, s: State)
    requires ValidConfig(c) && Shutdown(s) && !s.done
    ensures CanStrand(c, s)
    decreases s.starting, s.inFlight == map[], s.closer.NotClosed?
  {
    var e := if s.starting then StartFail
             else if s.inFlight == map[] then OfferCheck(0, SOME_RECORD)
             else if s.closer.NotClosed? then CloseRead else CloseDone;
    var t := Next(c, s, e);
    StepShutdown(c, s, e);
    if e.CloseDone? {
      UnsafeStrands(c, t);
    } else {
      assert e.OfferCheck? ==> 0 in t.inFlight;
      OpenCanStrand(c, t);
    }
    StrandsLater(c, s, e);
  }

  /** Exactly when a record can still be stranded, in every reachable state: as long as
      `done` is open; once it is closed, while an offer is between its two selects; and when
      a record sits in a channel whose writer has found it empty for the last time or was
      never launched. */
  lemma StrandableIff(c: Config, db: Db, events: seq<Event>, s: State)
    requires ValidConfig(c) && Exec(c, Init(db), events) == Some(s)
    ensures CanStrand(c, s) <==>
      !s.done || s.inFlight != map[] || (s.channel != [] && (!s.started || PastDrain(s.writer)))
  {
    RunInv(c, db, events, s);
    if !s.done {
      OpenCanStrand(c, s);
    } else if Safe(s) {
      SafeNeverStrands(c, s);
    } else {
      UnsafeStrands(c, s);
    }
  }

  /** At the moment `done` closes on a sink that is recording, this comes down to the offers
      in flight. */
  lemma ClosingStrandsIff(c: Config, db: Db, events: seq<Event>, s: State)
    requires ValidConfig(c) && Exec(c, Init(db), events) == Some(s) && Enabled(s, CloseDone) && s.started
    ensures CanStrand(c, Next(c, s, CloseDone)) <==> s.inFlight != map[]
  {
    RunInv(c, db, events, s);
    ExecSnoc(c, Init(db), events, s, CloseDone);
    StrandableIff(c, db, events + [CloseDone], Next(c, s, CloseDone));
  }

  // ---- When Close has flushed ------------------------------------------------------------------

  /** Everything accepted by the time `done` closed has been handed to the store. */
  ghost predicate Flushed(s: State) {
    s.past.early <= s.past.flushed
  }

  /** In every reachable state after `done` has closed, whether Close has returned or not:
      all of it is flushed exactly when what is still buffered was sent late, a Close that
      waited returns in such a state, and a sink never launched is in one only if it had
      accepted nothing. */
  lemma FlushedIff(c: Config, db: Db, events: seq<Event>, s: State)
    requires ValidConfig(c) && Exec(c, Init(db), events) == Some(s) && s.done
    ensures Flushed(s) <==> |s.batch| + |s.channel| <= |s.past.late|
    ensures s.closer == Returned(true) ==> s.writer.Stopped? && s.batch == [] && Flushed(s)
    ensures !s.started ==> (Flushed(s) <==> s.past.early == [])
  {
    RunInv(c, db, events, s);
    var sent := RecordsOf(s.past.straddlers, s.past.late);
    PrefixIff(s.past.flushed, s.batch, s.channel, s.past.early, sent);
  }

  lemma PrefixIff(a: seq<Record>, b: seq<Record>, c: seq<Record>, x: seq<Record>, y: seq<Record>)
    requires a + b + c == x + y
    ensures x <= a <==> |b| + |c| <= |y|
  {
    assert a + (b + c) == x + y;
    if |b + c| <= |y| {
      SplitAt(a, b + c, x, y);
    }
  }

  ghost predicate FlushesOnReturn(c: Config, s: State) {
    forall more :: Exec(c, s, more).Some? && Exec(c, s, more).value.closer.Returned? ==>
      Flushed(Exec(c, s, more).value)
  }

  lemma {:induction false} CloserRemembers(c: Config, s: State, more: seq<Event>, t: State)
    requires !s.closer.NotClosed? && Exec(c, s, more) == Some(t)
    ensures !t.closer.NotClosed? && t.closer.started == s.closer.started
    decreases |more|
  {
    if |more| > 0 {
      var m := |more| - 1;
      var mid := Exec(c, s, more[..m]).value;
      CloserRemembers(c, s, more[..m], mid);
      CloserStep(c, mid, more[m]);
    }
  }

  lemma CloserStep(c: Config, s: State, e: Event)
    requires Enabled(s, e) && !s.closer.NotClosed?
    ensures !Next(c, s, e).closer.NotClosed? && Next(c, s, e).closer.started == s.closer.started
  {
    match e
    case OfferSend(_) =>
    case WriteJobs(_) =>
    case WriteAttempts(_) =>
    case _ =>
  }

  lemma ReturnedIsDone(c: Config, db: Db, events: seq<Event>, s: State)
    requires ValidConfig(c) && Exec(c, Init(db), events) == Some(s) && s.closer.Returned?
    ensures s.done
  {
    RunInv(c, db, events, s);
  }

  /** A Close that read `started` as false returns at once, whatever is buffered. */
  lemma {:induction false} UnwaitedReturns(c: Config, s: State) returns (more: seq<Event>, t: State)
    requires ValidConfig(c) && Shutdown(s) && InOrder(s) && s.closer == ReadFlag(false)
    ensures Exec(c, s, more) == Some(t) && t.closer.Returned? && !Flushed(t)
    decreases s.channel == [], s.inFlight == map[]
  {
    if s.channel == [] {
      var e;
      if s.inFlight == map[] {
        e := OfferCheck(0, SOME_RECORD);
      } else {
        var hook :| hook in s.inFlight;
        e := OfferSend(hook);
        SendInOrder(c, s, hook);
      }
      var t0 := Next(c, s, e);
      StepShutdown(c, s, e);
      assert e.OfferCheck? ==> 0 in t0.inFlight;
      var rest;
      rest, t := UnwaitedReturns(c, t0);
      more := [e] + rest;
      ExecCons(c, s, e, rest);
    } else {
      var closing := Next(c, s, CloseDone);
      t := Next(c, closing, CloseReturn);
      more := [CloseDone] + [CloseReturn];
      ExecOne(c, closing, CloseReturn);
      ExecCons(c, s, CloseDone, [CloseReturn]);
      assert |s.past.accepted| > |s.past.flushed|;
    }
  }

  lemma {:induction false} StartedIffLaunched(c: Config, db: Db, events: seq<Event>, s: State)
    requires Exec(c, Init(db), events) == Some(s)
    ensures s.started <==> StartLaunch in events
    decreases |events|
  {
    if |events| > 0 {
      var m := |events| - 1;
      var mid := Exec(c, Init(db), events[..m]).value;
      StartedIffLaunched(c, db, events[..m], mid);
      LaunchStep(c, mid, events[m]);
      assert events == events[..m] + [events[m]];
    }
  }

  lemma LaunchStep(c: Config, s: State, e: Event)
    requires Enabled(s, e)
    ensures Next(c, s, e).started <==> s.started || e == StartLaunch
  {
    match e
    case OfferSend(_) =>
    case WriteJobs(_) =>
    case WriteAttempts(_) =>
    case _ =>
  }

  /** Exactly when Close keeps its promise to flush: if and only if the sink was launched
      before Close read the flag.  Otherwise some continuation of the very same run has Close
      return while a record accepted before `done` closed is still unwritten. */
  lemma CloseFlushesIff(c: Config, db: Db, events: seq<Event>, s: State)
    requires ValidConfig(c) && Exec(c, Init(db), events) == Some(s) && Enabled(s, CloseRead)
    ensures FlushesOnReturn(c, Next(c, s, CloseRead)) <==> StartLaunch in events
  {
    RunInv(c, db, events, s);
    StartedIffLaunched(c, db, events, s);
    var read := Next(c, s, CloseRead);
    ExecSnoc(c, Init(db), events, s, CloseRead);
    if s.started {
      forall more | Exec(c, read, more).Some? && Exec(c, read, more).value.closer.Returned?
        ensures Flushed(Exec(c, read, more).value)
      {
        var t := Exec(c, read, more).value;
        CloserRemembers(c, read, more, t);
        ExecConcat(c, Init(db), events + [CloseRead], more);
        ReturnedIsDone(c, db, events + [CloseRead] + more, t);
        FlushedIff(c, db, events + [CloseRead] + more, t);
      }
    } else {
      var more, t := UnwaitedReturns(c, read);
      assert !Flushed(Exec(c, read, more).value);
    }
  }

  /** Start and Close exclude one another: a Start that launches the writer after Close has read
      the flag has also begun after that reading. */
  lemma {:induction false} OvertakesFromBehind(c: Config, s: State, more: seq<Event>, t: State)
    requires Enabled(s, CloseRead) && Exec(c, Next(c, s, CloseRead), more) == Some(t)
    ensures StartCheck !in more ==> !t.starting && StartLaunch !in more
    decreases |more|
  {
    if |more| > 0 {
      var m := |more| - 1;
      var mid := Exec(c, Next(c, s, CloseRead), more[..m]).value;
      OvertakesFromBehind(c, s, more[..m], mid);
      assert more == more[..m] + [more[m]];
      if StartCheck !in more {
        StartingStep(c, mid, more[m]);
      }
    }
  }

  lemma StartingStep(c: Config, s: State, e: Event)
    requires Enabled(s, e) && !s.starting && e != StartCheck
    ensures !Next(c, s, e).starting && e != StartLaunch
  {
    match e
    case OfferSend(_) =>
    case WriteJobs(_) =>
    case WriteAttempts(_) =>
    case _ =>
  }

  // ---- Close does not hang --------------------------------------------------------------------

  /** Steps left before a draining writer stops. */
  function Remaining(s: State): nat {
    5 * |s.inFlight| + 4 * |s.channel| + Phase(s.writer)
  }

  predicate WriterStep(e: Event) {
    e.DrainReceive? || e.DrainEmpty? || e.WriteJobs? || e.WriteAttempts?
  }

  /** How many of the events are steps of the writer or sends. */
  function Busy(events: seq<Event>): nat {
    if |events| == 0 then 0
    else
      var e := events[|events| - 1];
      Busy(events[..|events| - 1]) + if WriterStep(e) || e.OfferSend? then 1 else 0
  }

  lemma SendLowers(c: Config, s: State, hook: nat)
    requires hook in s.inFlight
    ensures Sent(c, s, hook).writer == s.writer && Remaining(Sent(c, s, hook)) < Remaining(s)
  {
    SendKeepsSize(s.inFlight, hook);
  }

  /** Every step of the writer and every send lowers `Remaining`; other steps leave it
      alone. */
  lemma DrainStep(c: Config, s: State, e: Event)
    requires Shutdown(s) && InDrain(s.writer) && Enabled(s, e)
    ensures InDrain(Next(c, s, e).writer)
    ensures Remaining(Next(c, s, e)) + Busy([e]) <= Remaining(s)
  {
    assert [e][..0] == [];
    match e
    case OfferSend(hook) => SendLowers(c, s, hook);
    case DrainReceive =>
    case WriteJobs(_) =>
    case WriteAttempts(_) =>
    case _ =>
  }

  lemma StoppedIffNoStep(s: State)
    requires InDrain(s.writer)
    ensures s.writer.Stopped? <==> forall e :: WriterStep(e) ==> !Enabled(s, e)
  {
    match s.writer
    case Stopped =>
    case Draining => assert Enabled(s, if |s.channel| > 0 then DrainReceive else DrainEmpty);
    case FlushJobs(_) => assert Enabled(s, WriteJobs(true));
    case FlushAttempts(_) => assert Enabled(s, WriteAttempts(true));
  }

  /** The drain ends: once the writer has seen `done`, every continuation holds at most
      `Remaining` of its steps and of sends, and the writer has a step left to take exactly
      until it has stopped. */
  lemma {:induction false} DrainTerminates(c: Config, s: State, more: seq<Event>, t: State)
    requires Shutdown(s) && InDrain(s.writer) && Exec(c, s, more) == Some(t)
    ensures InDrain(t.writer) && Busy(more) + Remaining(t) <= Remaining(s)
    ensures t.writer.Stopped? <==> forall e :: WriterStep(e) ==> !Enabled(t, e)
    decreases |more|
  {
    if |more| > 0 {
      var m := |more| - 1;
      var mid := Exec(c, s, more[..m]).value;
      DrainTerminates(c, s, more[..m], mid);
      RunShutdown(c, s, more[..m], mid);
      DrainStep(c, mid, more[m]);
      assert [more[m]][..0] == [];
    }
    StoppedIffNoStep(t);
  }

  // ---- Concrete runs in which a record is lost -------------------------------------------------

  /** One more step of a run. */
  lemma Go(c: Config, db: Db, events: seq<Event>, s: State, e: Event) returns (more: seq<Event>, t: State)
    requires Exec(c, Init(db), events) == Some(s) && Enabled(s, e)
    ensures more == events + [e] && t == Next(c, s, e) && Exec(c, Init(db), more) == Some(t)
  {
    more, t := events + [e], Next(c, s, e);
    ExecSnoc(c, Init(db), events, s, e);
  }

  /** Start claims its epoch, reconciles and launches the writer. */
  lemma GoStart(c: Config, db: Db, events: seq<Event>, s: State, epoch: string, now: Records.Time, cutoff: Records.Time)
    returns (more: seq<Event>, t: State)
    requires Exec(c, Init(db), events) == Some(s) && Enabled(s, StartCheck)
    ensures Exec(c, Init(db), more) == Some(t)
    ensures t == s.(started := true, writer := Looping, db := t.db, past := s.past.(base := t.db))
  {
    more, t := Go(c, db, events, s, StartCheck);
    more, t := Go(c, db, more, t, StartCall(Beat(epoch, now)));
    more, t := Go(c, db, more, t, StartCall(ReconcileAt(epoch, cutoff)));
    more, t := Go(c, db, more, t, StartLaunch);
  }

  /** Close begins around an offer that has passed its first select. */
  lemma CaughtBetweenSelects(c: Config, db: Db, epoch: string, now: Records.Time, cutoff: Records.Time, r: Record)
    returns (events: seq<Event>, s: State)
    ensures Exec(c, Init(db), events) == Some(s)
    ensures s.writer == Looping && s.done && s.closer == Waiting(true) && s.channel == [] && s.batch == []
    ensures s.inFlight == s.past.straddlers == map[0 := r] && s.dropped == 0 && s.written == 0
  {
    events, s := GoStart(c, db, [], Init(db), epoch, now, cutoff);
    events, s := Go(c, db, events, s, OfferCheck(0, r));
    events, s := Go(c, db, events, s, CloseRead);
    events, s := Go(c, db, events, s, CloseDone);
  }

  /** A straddler is stranded: Close has waited for the writer, and the record of an offer
      caught between its two selects lands in a channel nobody reads, neither written nor
      counted as dropped. */
  lemma StraddlerStranded(c: Config, db: Db, epoch: string, now: Records.Time, cutoff: Records.Time, r: Record)
    returns (events: seq<Event>, s: State)
    requires ValidConfig(c)
    ensures Exec(c, Init(db), events) == Some(s)
    ensures s.closer == Returned(true) && Over(s) && s.past.straddlers == map[0 := r]
    ensures s.channel == [r] && s.dropped == 0 && s.written == 0
  {
    events, s := CaughtBetweenSelects(c, db, epoch, now, cutoff, r);
    events, s := Go(c, db, events, s, SeeDone);
    events, s := Go(c, db, events, s, DrainEmpty);
    events, s := Go(c, db, events, s, CloseReturn);
    events, s := Go(c, db, events, s, OfferSend(0));
  }

  /** A record accepted by a sink with no writer yet, after which Close reads the flag. */
  lemma BufferedThenRead(c: Config, db: Db, r: Record) returns (events: seq<Event>, s: State)
    requires ValidConfig(c)
    ensures Exec(c, Init(db), events) == Some(s)
    ensures s == Init(db).(channel := [r], closer := ReadFlag(false),
                           past := Init(db).past.(offered := 1, accepted := [r]))
  {
    events, s := Go(c, db, [], Init(db), OfferCheck(0, r));
    events, s := Go(c, db, events, s, OfferSend(0));
    events, s := Go(c, db, events, s, CloseRead);
    assert s.inFlight == map[];
  }

  /** Start overtakes Close between its reading of the flag and its closing of `done`: Close
      returns without waiting, with a live writer and a record unwritten, though no offer was
      in flight. */
  lemma StartOvertakesClose(c: Config, db: Db, epoch: string, now: Records.Time, cutoff: Records.Time, r: Record)
    returns (events: seq<Event>, s: State)
    requires ValidConfig(c)
    ensures Exec(c, Init(db), events) == Some(s)
    ensures s.closer == Returned(false) && s.started && s.writer == Looping && s.past.straddlers == map[]
    ensures s.channel == [r] && s.past.flushed == [] && s.dropped == 0 && s.written == 0
  {
    events, s := BufferedThenRead(c, db, r);
    events, s := GoStart(c, db, events, s, epoch, now, cutoff);
    events, s := Go(c, db, events, s, CloseDone);
    events, s := Go(c, db, events, s, CloseReturn);
  }

  /** A sink that is closed without ever having been started loses what it had accepted. */
  lemma NeverStarted(c: Config, db: Db, r: Record) returns (events: seq<Event>, s: State)
    requires ValidConfig(c)
    ensures Exec(c, Init(db), events) == Some(s)
    ensures s.closer == Returned(false) && Over(s) && s.past.straddlers == map[]
    ensures s.channel == [r] && s.dropped == 0 && s.written == 0
  {
    events, s := BufferedThenRead(c, db, r);
    events, s := Go(c, db, events, s, CloseDone);
    events, s := Go(c, db, events, s, CloseReturn);
  }
}
