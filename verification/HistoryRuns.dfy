/** What holds over every sequence of store calls, whichever processes make them. */
module HistoryRuns {
  import opened Bands
  import opened Records
  import opened Names
  import opened Merging
  import opened History

  /** Every row sits under its own key, and no attempt slot is recorded twice. */
  ghost predicate Indexed(db: Db) {
    (forall k :: k in db.jobs ==> db.jobs[k].key == k) && UniqueAttempts(db)
  }

  /** Every row carries the pattern of its name. */
  ghost predicate Patterned(jobs: map<string, Job>) {
    forall k :: k in jobs ==> jobs[k].pattern == NormalizeName(jobs[k].name)
  }

  ghost predicate Valid(db: Db) {
    Indexed(db) && Patterned(db.jobs)
  }

  lemma {:induction false} FoldKeepsKey(row: Option<Job>, own: seq<Job>, k: string)
    requires forall j :: j in own ==> j.key == k
    requires row.Some? ==> row.value.key == k
    ensures var r := Fold(Merge, row, own); r.Some? ==> r.value.key == k
    decreases |own|
  {
    if |own| > 0 {
      FoldKeepsKey(row, own[..|own| - 1], k);
      assert own[|own| - 1] in own;
    }
  }

  lemma {:induction false} FoldKeepsRow(row: Option<Job>, own: seq<Job>, k: string)
    requires forall j :: j in own ==> j.key == k && j.pattern == NormalizeName(j.name)
    requires row.Some? ==> row.value.key == k && row.value.pattern == NormalizeName(row.value.name)
    ensures var r := Fold(Merge, row, own);
      && (r.Some? ==> r.value.key == k && r.value.pattern == NormalizeName(r.value.name))
      && (row.Some? ==> r.Some? && Later(row.value, r.value))
    decreases |own|
  {
    if |own| > 0 {
      var m := |own| - 1;
      FoldKeepsRow(row, own[..m], k);
      assert own[m] in own;
      var mid := Fold(Merge, row, own[..m]);
      if mid.Some? {
        MergeAdvances(mid.value, own[m]);
      }
      if row.Some? {
        LaterIsTransitive(row.value, mid.value, Merge(mid.value, own[m]));
      }
    }
  }

  lemma UpsertIndexed(jobs: map<string, Job>, batch: seq<Job>, k: string)
    requires forall x :: x in jobs ==> jobs[x].key == x
    ensures k in UpsertAll(jobs, batch) ==> UpsertAll(jobs, batch)[k].key == k
  {
    UpsertProjects(jobs, batch, k);
    FoldKeepsKey(Get(jobs, k), Own(k, batch), k);
  }

  lemma UpsertPatterned(jobs: map<string, Job>, batch: seq<Job>, k: string)
    requires (forall x :: x in jobs ==> jobs[x].key == x) && Patterned(jobs)
    ensures var after := UpsertAll(jobs, batch);
      && (k in after ==> after[k].pattern == NormalizeName(after[k].name))
      && (k in jobs ==> k in after && Later(jobs[k], after[k]))
  {
    UpsertProjects(jobs, batch, k);
    FoldKeepsRow(Get(jobs, k), Own(k, batch), k);
  }

  lemma SaveIndexed(attempts: map<string, seq<Attempt>>, batch: seq<Attempt>, k: string)
    requires UniqueSlots(List(attempts, k))
    ensures UniqueSlots(List(SaveAll(attempts, batch), k))
  {
    SaveProjects(attempts, batch, k);
    PlaceAllLookup(List(attempts, k), OwnAttempts(k, batch), Slot(0, 0));
  }

  lemma ApplyIndexed(db: Db, op: Op)
    requires Indexed(db)
    ensures Indexed(Apply(db, op))
  {
    match op
    case Upsert(batch) =>
      forall k | k in UpsertAll(db.jobs, batch) ensures UpsertAll(db.jobs, batch)[k].key == k {
        UpsertIndexed(db.jobs, batch, k);
      }
    case Save(batch) =>
      forall k | k in SaveAll(db.attempts, batch) ensures UniqueSlots(SaveAll(db.attempts, batch)[k]) {
        SaveIndexed(db.attempts, batch, k);
      }
    case Beat(_, _) =>
    case ReconcileAt(_, _) =>
    case PruneAt(_, _) =>
  }

  lemma ApplyPatterned(db: Db, op: Op)
    requires Valid(db)
    ensures Patterned(Apply(db, op).jobs)
  {
    match op
    case Upsert(batch) =>
      forall k | k in UpsertAll(db.jobs, batch)
        ensures var j := UpsertAll(db.jobs, batch)[k]; j.pattern == NormalizeName(j.name)
      {
        UpsertPatterned(db.jobs, batch, k);
      }
    case Save(_) =>
    case Beat(_, _) =>
    case ReconcileAt(self, cutoff) => InterruptPatterned(db.jobs, OrphanKeys(db, self, cutoff));
    case PruneAt(before, states) =>
  }

  lemma InterruptPatterned(jobs: map<string, Job>, keys: set<string>)
    requires Patterned(jobs)
    ensures Patterned(Interrupt(jobs, keys))
  {
    var after := Interrupt(jobs, keys);
    forall k | k in after ensures after[k].pattern == NormalizeName(after[k].name) {
      assert after[k].name == jobs[k].name && after[k].pattern == jobs[k].pattern;
    }
  }

  lemma ApplyValid(db: Db, op: Op)
    requires Valid(db)
    ensures Valid(Apply(db, op))
  {
    ApplyIndexed(db, op);
    ApplyPatterned(db, op);
  }

  /** Over every run: the stored key is the map key, the pattern is the normalized
      name, and attempts keep at most one record per (key, attempt, start). */
  lemma {:induction false} RunValid(db: Db, ops: seq<Op>)
    requires Valid(db)
    ensures Valid(Run(db, ops))
  {
    if |ops| > 0 {
      RunValid(db, ops[..|ops| - 1]);
      ApplyValid(Run(db, ops[..|ops| - 1]), ops[|ops| - 1]);
    }
  }

  /** One call never takes a row back. */
  lemma ApplyAdvances(db: Db, op: Op, k: string)
    requires Valid(db)
    requires k in db.jobs && k in Apply(db, op).jobs
    ensures Later(db.jobs[k], Apply(db, op).jobs[k])
  {
    match op
    case Upsert(batch) => UpsertPatterned(db.jobs, batch, k);
    case Save(_) =>
    case Beat(_, _) =>
    case ReconcileAt(self, cutoff) => ReconcileAdvances(db, self, cutoff, k);
    case PruneAt(_, _) =>
  }

  lemma ReconcileAdvances(db: Db, self: string, cutoff: Time, k: string)
    requires k in db.jobs
    ensures Later(db.jobs[k], Reconcile(db, self, cutoff).jobs[k])
  {}

  lemma RunStep(db: Db, ops: seq<Op>, j: nat)
    requires j < |ops|
    ensures Run(db, ops[..j + 1]) == Apply(Run(db, ops[..j]), ops[j])
  {
    assert ops[..j + 1][..j] == ops[..j];
  }

  lemma StepAdvances(db: Db, ops: seq<Op>, j: nat, k: string)
    requires Valid(db) && j < |ops|
    requires k in Run(db, ops[..j]).jobs && k in Run(db, ops[..j + 1]).jobs
    ensures Later(Run(db, ops[..j]).jobs[k], Run(db, ops[..j + 1]).jobs[k])
  {
    RunValid(db, ops[..j]);
    RunStep(db, ops, j);
    ApplyAdvances(Run(db, ops[..j]), ops[j], k);
  }

  /** Run-wide monotonicity: while a row exists, its rank, attempt number and progress
      instant never decrease, a terminal state never changes, and a set name,
      lineage, enqueue or start time never changes. */
  lemma {:induction false} RunAdvances(db: Db, ops: seq<Op>, i: nat, j: nat, k: string)
    requires Valid(db)
    requires i <= j <= |ops|
    requires forall m :: i <= m <= j ==> k in Run(db, ops[..m]).jobs
    ensures Later(Run(db, ops[..i]).jobs[k], Run(db, ops[..j]).jobs[k])
    decreases j
  {
    if i < j {
      RunAdvances(db, ops, i, j - 1, k);
      StepAdvances(db, ops, j - 1, k);
      LaterIsTransitive(Run(db, ops[..i]).jobs[k], Run(db, ops[..j - 1]).jobs[k], Run(db, ops[..j]).jobs[k]);
    }
  }

  /** Only Prune removes a row, and only a terminal one that has aged out. */
  lemma OnlyPruneRemoves(db: Db, op: Op, k: string)
    requires k in db.jobs
    ensures k !in Apply(db, op).jobs
       <==> op.PruneAt? && op.before != 0 && Aged(db.jobs[k], op.before, op.states)
  {
    if op.Upsert? {
      UpsertProjects(db.jobs, op.jobs, k);
      FoldNeverForgets(db.jobs[k], Own(k, op.jobs));
    }
  }

  lemma {:induction false} FoldNeverForgets(row: Job, own: seq<Job>)
    ensures Fold(Merge, Some(row), own).Some?
  {
    if |own| > 0 {
      FoldNeverForgets(row, own[..|own| - 1]);
    }
  }

  /** A row that is gone at the end of a run was terminal just before the Prune that
      took it. */
  lemma {:induction false} GoneMeansPruned(db: Db, ops: seq<Op>, k: string) returns (m: nat)
    requires k in db.jobs && k !in Run(db, ops).jobs
    ensures m < |ops| && ops[m].PruneAt?
    ensures k in Run(db, ops[..m]).jobs && Terminal(Run(db, ops[..m]).jobs[k].state)
  {
    var n := |ops| - 1;
    if k in Run(db, ops[..n]).jobs {
      OnlyPruneRemoves(Run(db, ops[..n]), ops[n], k);
      m := n;
    } else {
      m := GoneMeansPruned(db, ops[..n], k);
      assert ops[..n][..m] == ops[..m];
    }
  }

  // ---- Reconcile and prune are exact ----------------------------------------------

  /** The number of rows that one table holds and the other does not hold as they were. */
  ghost function Changed(before: map<string, Job>, after: map<string, Job>): nat {
    |set k | k in before && Get(after, k) != Some(before[k])|
  }

  /** Reconciling leaves nothing in flight except by the caller and by beating epochs:
      exactly the orphans become interrupted, and nothing else about any row changes. */
  lemma ReconcileExact(db: Db, self: string, cutoff: Time)
    ensures var after := Reconcile(db, self, cutoff);
      && after.jobs.Keys == db.jobs.Keys && after.attempts == db.attempts && after.epochs == db.epochs
      && (forall k :: k in after.jobs && !Terminal(after.jobs[k].state)
            ==> after.jobs[k].epoch == self || Beating(db.epochs, after.jobs[k].epoch, cutoff))
      && (forall k :: k in db.jobs ==>
            after.jobs[k] == if Orphaned(db.epochs, self, cutoff, db.jobs[k])
                             then db.jobs[k].(state := Interrupted) else db.jobs[k])
  {}

  /** The count returned is the number of rows changed, and repeating the call at the
      same instant changes none. */
  lemma ReconcileCounts(db: Db, self: string, cutoff: Time)
    ensures Reconcile(db, self, cutoff).jobs.Keys == db.jobs.Keys
    ensures |OrphanKeys(db, self, cutoff)| == Changed(db.jobs, Reconcile(db, self, cutoff).jobs)
    ensures OrphanKeys(Reconcile(db, self, cutoff), self, cutoff) == {}
    ensures Reconcile(Reconcile(db, self, cutoff), self, cutoff) == Reconcile(db, self, cutoff)
  {
    var after := Reconcile(db, self, cutoff);
    assert OrphanKeys(db, self, cutoff) == set k | k in db.jobs && Get(after.jobs, k) != Some(db.jobs[k]);
    assert OrphanKeys(after, self, cutoff) == {};
  }

  /** Exactly the aged terminal rows in the wanted states go; a zero cutoff removes
      nothing. */
  lemma PruneExact(db: Db, before: Time, states: set<State>)
    ensures var after := Prune(db, before, states);
      && (before == 0 ==> after == db)
      && after.epochs == db.epochs
      && (before != 0 ==>
            (forall k :: k in after.jobs <==> k in db.jobs && !Aged(db.jobs[k], before, states)))
      && (forall k :: k in after.jobs ==> after.jobs[k] == db.jobs[k])
  {
    assert before == 0 ==> db.jobs - {} == db.jobs && db.attempts - {} == db.attempts;
  }

  /** A pruned row takes all its attempts with it; no other attempts are touched. */
  lemma PruneTakesAttempts(db: Db, before: Time, states: set<State>, k: string)
    requires k in db.attempts
    ensures var after := Prune(db, before, states);
      && (k in after.attempts <==> k in after.jobs || k !in db.jobs)
      && (k in after.attempts ==> after.attempts[k] == db.attempts[k])
  {}

  /** The count returned is the number of rows removed, and a second call removes
      none. */
  lemma PruneCounts(db: Db, before: Time, states: set<State>)
    ensures |AgedKeys(db.jobs, before, states)| == |db.jobs| - |Prune(db, before, states).jobs|
    ensures AgedKeys(Prune(db, before, states).jobs, before, states) == {}
  {
    var gone, left := AgedKeys(db.jobs, before, states), Prune(db, before, states).jobs;
    assert db.jobs.Keys == left.Keys + gone;
    assert |db.jobs.Keys| == |left.Keys| + |gone|;
  }
}
