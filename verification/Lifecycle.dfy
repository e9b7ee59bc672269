/** Where a job stands (State in store/store.go, merge in store/memory/memory.go), told from
the states that its events carry. */
module Lifecycle {
  import opened Bands
  import opened Records
  import opened Merging
  import opened History

  /** A job that is not over is created, pending or active. */
  predicate Live(s: State) {
    s == Created || s == Pending || s == Active
  }

  lemma TerminalIff(s: State)
    ensures Terminal(s) <==> s != Created && s != Pending && s != Active
  {}

  /** The failure states are the named states that end a job, except completion. */
  lemma FailureIff(s: State)
    ensures s in FAILURE_STATES <==> !Live(s) && s != Completed && !s.Other?
  {}

  function States(own: seq<Job>): (states: seq<State>)
    ensures |states| == |own| && forall i :: 0 <= i < |own| ==> states[i] == own[i].state
  {
    seq(|own|, i requires 0 <= i < |own| => own[i].state)
  }

  /** What has been said of a job, in the order it arrived: the state of its row, if it has
      one, and then those of its events. */
  function Said(stored: Option<Job>, own: seq<Job>): seq<State> {
    (if stored.Some? then [stored.value.state] else []) + States(own)
  }

  /** The first word that ends the job. */
  predicate Ends(said: seq<State>, i: nat) {
    i < |said| && !Live(said[i]) && forall h :: 0 <= h < i ==> Live(said[h])
  }

  /** `s` is where a job stands: the end that was reported first, or else the furthest of
      created, pending and active. */
  ghost predicate Stands(said: seq<State>, s: State) {
    if forall t :: t in said ==> Live(t)
    then s == if Active in said then Active else if Pending in said then Pending else Created
    else exists i: nat :: Ends(said, i) && s == said[i]
  }

  lemma StandsLive(s: State, x: State)
    requires Live(s)
    ensures Rank(x) > Rank(s) <==> !Live(x) || (x == Active && s != Active) || (x == Pending && s == Created)
  {}

  lemma EndsLater(said: seq<State>, i: nat, x: State)
    requires Ends(said, i)
    ensures Ends(said + [x], i) && (said + [x])[i] == said[i]
  {}

  lemma StandsStep(said: seq<State>, s: State, x: State)
    requires said != [] && Stands(said, s)
    ensures Stands(said + [x], if Rank(x) > Rank(s) then x else s)
  {
    var all := said + [x];
    assert forall t :: t in all <==> t in said || t == x;
    if forall t :: t in said ==> Live(t) {
      StandsLive(s, x);
      if Live(x) {
        StandsAmong(said, s, x);
      } else {
        assert Ends(all, |said|);
        assert x in all;
      }
    } else {
      var i: nat :| Ends(said, i) && s == said[i];
      EndsLater(said, i, x);
      assert said[i] in said;
    }
  }

  lemma StandsAmong(said: seq<State>, s: State, x: State)
    requires said != [] && Stands(said, s) && Live(x) && forall t :: t in said ==> Live(t)
    ensures Stands(said + [x], if Rank(x) > Rank(s) then x else s)
  {
    var all := said + [x];
    assert forall t :: t in all <==> t in said || t == x;
    assert said[0] in said;
  }

  lemma StandsAlone(x: State)
    ensures Stands([x], x)
  {
    if !Live(x) {
      assert Ends([x], 0) && x in [x];
    }
  }

  lemma {:induction false} FoldStands(stored: Option<Job>, own: seq<Job>)
    requires Said(stored, own) != []
    ensures var row := Fold(Merge, stored, own); row.Some? && Stands(Said(stored, own), row.value.state)
    decreases |own|
  {
    if |own| == 0 {
      StandsAlone(stored.value.state);
      assert Said(stored, own) == [stored.value.state];
    } else {
      var m := |own| - 1;
      var before := Said(stored, own[..m]);
      assert Said(stored, own) == before + [own[m].state];
      if before == [] {
        StandsAlone(own[m].state);
        assert before + [own[m].state] == [own[m].state];
      } else {
        FoldStands(stored, own[..m]);
        StandsStep(before, Fold(Merge, stored, own[..m]).value.state, own[m].state);
      }
    }
  }

  /** Where a row stands after any deliveries, however they are ordered and batched: at the
      first end reported of the job, and until then at active if anything said so, else at
      pending if anything did, else at created. */
  lemma JobStands(jobs: map<string, Job>, delivery: seq<seq<Job>>, k: string)
    requires Said(Get(jobs, k), Own(k, Flatten(delivery))) != []
    ensures var after := UpsertBatches(jobs, delivery);
      k in after && Stands(Said(Get(jobs, k), Own(k, Flatten(delivery))), after[k].state)
  {
    BatchingIrrelevant(jobs, delivery);
    UpsertProjects(jobs, Flatten(delivery), k);
    FoldStands(Get(jobs, k), Own(k, Flatten(delivery)));
  }

  /** So a job that is enqueued and started is active, in whichever order the two events
      come. */
  lemma StartAndEnqueueCommute(jobs: map<string, Job>, enqueued: Job, started: Job)
    requires enqueued.state == Created && started.state == Active && JobKey(enqueued) == JobKey(started)
    requires JobKey(started) !in jobs
    ensures var k := JobKey(started);
      && UpsertAll(jobs, [enqueued, started])[k].state == Active
      && UpsertAll(jobs, [started, enqueued])[k].state == Active
  {
    TwoEvents(jobs, enqueued, started);
    TwoEvents(jobs, started, enqueued);
  }

  lemma TwoEvents(jobs: map<string, Job>, a: Job, b: Job)
    requires JobKey(a) == JobKey(b) && JobKey(b) !in jobs
    ensures var after := UpsertAll(jobs, [a, b]);
      JobKey(b) in after && Stands([a.state, b.state], after[JobKey(b)].state)
    ensures a.state in [a.state, b.state] && b.state in [a.state, b.state]
  {
    var k := JobKey(b);
    assert [a, b][..1] == [a] && [a][..0] == [];
    assert Own(k, []) == [] && Own(k, [a]) == [Prepare(a)] && Own(k, [a, b]) == [Prepare(a), Prepare(b)];
    assert Said(None, Own(k, [a, b])) == [a.state, b.state];
    UpsertProjects(jobs, [a, b], k);
    FoldStands(None, Own(k, [a, b]));
  }
}
