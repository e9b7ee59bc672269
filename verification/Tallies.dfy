/** Grouping and per-state tallies (store/memory/memory.go, GroupJobs and Counts). */
module Tallies {
  import opened Records
  import opened Partition
  import opened Filters

  datatype Family = Family(pattern: string, state: State, err: string)

  datatype Group = Group(family: Family, count: nat, lastSeen: Time)

  function FamilyOf(j: Job): Family {
    Family(if j.pattern == "" then "(unnamed)" else j.pattern, j.state, j.err)
  }

  ghost function Members(rows: set<Job>, f: Family): set<Job> {
    Class(rows, FamilyOf, f)
  }

  /** The latest activity of a group, never before the zero time. */
  ghost predicate IsLastSeen(members: set<Job>, t: Time) {
    && t >= 0
    && (forall j :: j in members ==> LastActive(j) <= t)
    && (t == 0 || exists j :: j in members && LastActive(j) == t)
  }

  ghost predicate Describes(rows: set<Job>, g: Group) {
    var members := Members(rows, g.family);
    members != {} && g.count == |members| && IsLastSeen(members, g.lastSeen)
  }

  function Families(groups: seq<Group>): (fs: seq<Family>)
    ensures |fs| == |groups|
    ensures forall i :: 0 <= i < |groups| ==> fs[i] == groups[i].family
  {
    seq(|groups|, i requires 0 <= i < |groups| => groups[i].family)
  }

  ghost predicate DistinctFamilies(groups: seq<Group>) {
    forall i, j :: 0 <= i < j < |groups| ==> groups[i].family != groups[j].family
  }

  /** A complete grouping: one true description per family that occurs. */
  ghost predicate Grouping(rows: set<Job>, groups: seq<Group>) {
    && DistinctFamilies(groups)
    && (forall g :: g in groups ==> Describes(rows, g))
    && (forall j :: j in rows ==> FamilyOf(j) in Families(groups))
  }

  /** The rows with a given state, error and shown pattern; a blank pattern shows as
      "(unnamed)". */
  ghost function Alike(rows: set<Job>, pattern: string, state: State, err: string): set<Job> {
    set j | j in rows && j.state == state && j.err == err &&
            (if j.pattern == "" then pattern == "(unnamed)" else pattern == j.pattern)
  }

  ghost function AlikeIn(rows: set<Job>, g: Group): set<Job> {
    Alike(rows, g.family.pattern, g.family.state, g.family.err)
  }

  /** Each group counts the rows that share its pattern, state and error. */
  lemma GroupIs(rows: set<Job>, g: Group)
    requires Describes(rows, g)
    ensures g.count == |AlikeIn(rows, g)| > 0 && IsLastSeen(AlikeIn(rows, g), g.lastSeen)
  {
    assert Members(rows, g.family) == AlikeIn(rows, g);
  }

  predicate SameShown(a: Job, b: Job) {
    || a.pattern == b.pattern
    || (a.pattern == "" && b.pattern == "(unnamed)") || (a.pattern == "(unnamed)" && b.pattern == "")
  }

  ghost predicate GroupedTogether(rows: set<Job>, groups: seq<Group>, a: Job, b: Job) {
    exists g :: g in groups && a in AlikeIn(rows, g) && b in AlikeIn(rows, g)
  }

  /** Two rows are counted in one group if and only if they agree on state, error and shown
      pattern. */
  lemma GroupedIff(rows: set<Job>, groups: seq<Group>, a: Job, b: Job)
    requires Grouping(rows, groups) && a in rows && b in rows
    ensures GroupedTogether(rows, groups, a, b) <==> a.state == b.state && a.err == b.err && SameShown(a, b)
  {
    var i :| 0 <= i < |groups| && Families(groups)[i] == FamilyOf(a);
    assert groups[i] in groups && a in AlikeIn(rows, groups[i]);
  }

  function SumCounts(groups: seq<Group>): nat {
    if |groups| == 0 then 0 else SumCounts(groups[..|groups| - 1]) + groups[|groups| - 1].count
  }

  lemma {:induction false} SumCountsIsSumSizes(rows: set<Job>, groups: seq<Group>)
    requires forall g :: g in groups ==> Describes(rows, g)
    ensures SumCounts(groups) == SumSizes(rows, FamilyOf, Families(groups))
  {
    if |groups| > 0 {
      var m := |groups| - 1;
      SumCountsIsSumSizes(rows, groups[..m]);
      assert Families(groups)[..m] == Families(groups[..m]);
      assert groups[m] in groups;
    }
  }

  /** Grouping conserves rows: the counts of a complete grouping add up to the number
      of matching rows, which is what CountJobs returns. */
  lemma GroupingConserves(rows: set<Job>, groups: seq<Group>)
    requires Grouping(rows, groups)
    ensures SumCounts(groups) == |rows|
  {
    SumCountsIsSumSizes(rows, groups);
    SizesAddUp(rows, FamilyOf, Families(groups));
    assert Classified(rows, FamilyOf, Families(groups)) == rows;
  }

  // ---- Building the tally ----------------------------------------------------------

  ghost predicate TallyOf(rows: set<Job>, tally: map<Family, Group>) {
    && (forall f :: f in tally ==> tally[f].family == f && Describes(rows, tally[f]))
    && (forall j :: j in rows ==> FamilyOf(j) in tally)
  }

  /** An enumeration of a set never meets the same member twice. */
  lemma EnumerationFresh(found: seq<Job>, rows: set<Job>, i: nat)
    requires multiset(found) == multiset(rows) && i < |found|
    ensures found[i] !in found[..i]
  {
    assert found == found[..i] + [found[i]] + found[i + 1..];
    assert multiset(rows)[found[i]] >= multiset(found[..i])[found[i]] + 1;
  }

  ghost function Seen(found: seq<Job>): set<Job> {
    set j | j in found
  }

  function Bump(g: Group, seen: Time): Group {
    Group(g.family, g.count + 1, if seen > g.lastSeen then seen else g.lastSeen)
  }

  method Tally(found: seq<Job>, ghost rows: set<Job>) returns (tally: map<Family, Group>)
    requires multiset(found) == multiset(rows)
    ensures TallyOf(rows, tally)
  {
    tally := map[];
    for i := 0 to |found|
      invariant TallyOf(Seen(found[..i]), tally)
    {
      var job := found[i];
      EnumerationFresh(found, rows, i);
      assert found[..i + 1] == found[..i] + [job];
      assert Seen(found[..i + 1]) == Seen(found[..i]) + {job};
      var f := FamilyOf(job);
      TallyStep(Seen(found[..i]), tally, job);
      var g := if f in tally then tally[f] else Group(f, 0, 0);
      tally := tally[f := Bump(g, LastActive(job))];
    }
    assert forall j :: j in rows <==> j in multiset(rows);
    assert rows == Seen(found[..|found|]);
  }

  lemma DescribesStep(done: set<Job>, g: Group, job: Job)
    requires job !in done && g.family == FamilyOf(job)
    requires g.count == |Members(done, g.family)| && IsLastSeen(Members(done, g.family), g.lastSeen)
    ensures Describes(done + {job}, Bump(g, LastActive(job)))
  {
    var before, after := Members(done, g.family), Members(done + {job}, g.family);
    ClassInsert(done, FamilyOf, job, g.family);
    assert job in after && before <= after;
  }

  lemma DescribesFrame(done: set<Job>, g: Group, job: Job)
    requires job !in done && g.family != FamilyOf(job) && Describes(done, g)
    ensures Describes(done + {job}, g)
  {
    ClassInsert(done, FamilyOf, job, g.family);
  }

  lemma StartsEmpty(done: set<Job>, tally: map<Family, Group>, f: Family)
    requires TallyOf(done, tally)
    ensures f !in tally ==> Members(done, f) == {}
  {}

  lemma TallyStep(done: set<Job>, tally: map<Family, Group>, job: Job)
    requires TallyOf(done, tally) && job !in done
    ensures var f := FamilyOf(job);
      var g := if f in tally then tally[f] else Group(f, 0, 0);
      TallyOf(done + {job}, tally[f := Bump(g, LastActive(job))])
  {
    var f := FamilyOf(job);
    var g := if f in tally then tally[f] else Group(f, 0, 0);
    StartsEmpty(done, tally, f);
    DescribesStep(done, g, job);
    var after := tally[f := Bump(g, LastActive(job))];
    forall h | h in after ensures after[h].family == h && Describes(done + {job}, after[h]) {
      if h != f {
        DescribesFrame(done, tally[h], job);
      }
    }
  }

  // ---- Largest group first -------------------------------------------------------------

  /** `a` may precede `b`: not smaller, and among equals not seen earlier. */
  predicate Precedes(a: Group, b: Group) {
    if a.count == b.count then a.lastSeen >= b.lastSeen else a.count > b.count
  }

  ghost predicate LargestFirst(groups: seq<Group>) {
    forall i, j :: 0 <= i < j < |groups| ==> Precedes(groups[i], groups[j])
  }

  /** Each group counts the rows that share its pattern, state and error, and their latest
      activity; larger groups come first, and among equals those seen later. */
  ghost predicate Summary(rows: set<Job>, groups: seq<Group>) {
    && (forall g :: g in groups ==> g.count == |AlikeIn(rows, g)| > 0 && IsLastSeen(AlikeIn(rows, g), g.lastSeen))
    && (forall i, j :: 0 <= i < j < |groups| ==>
          && groups[i].count >= groups[j].count
          && (groups[i].count == groups[j].count ==> groups[i].lastSeen >= groups[j].lastSeen))
  }

  lemma Summarizes(rows: set<Job>, all: seq<Group>, groups: seq<Group>)
    requires Grouping(rows, all) && LargestFirst(all) && groups <= all
    ensures Summary(rows, groups)
  {
    forall g | g in groups
      ensures g.count == |AlikeIn(rows, g)| > 0 && IsLastSeen(AlikeIn(rows, g), g.lastSeen)
    {
      assert g in all;
      GroupIs(rows, g);
    }
  }

  method InsertGroup(groups: seq<Group>, g: Group) returns (out: seq<Group>)
    requires LargestFirst(groups) && DistinctFamilies(groups)
    requires forall x :: x in groups ==> x.family != g.family
    ensures LargestFirst(out) && DistinctFamilies(out)
    ensures forall x :: x in out <==> x in groups || x == g
  {
    var p := 0;
    while p < |groups| && Precedes(groups[p], g)
      invariant 0 <= p <= |groups|
      invariant forall q :: 0 <= q < p ==> Precedes(groups[q], g)
    {
      p := p + 1;
    }
    forall q | p <= q < |groups| ensures Precedes(g, groups[q]) {
      assert q > p ==> Precedes(groups[p], groups[q]);
    }
    out := groups[..p] + [g] + groups[p..];
    SpliceGroup(groups, g, p);
    assert groups == groups[..p] + groups[p..];
  }

  lemma SpliceGroup(groups: seq<Group>, g: Group, p: nat)
    requires p <= |groups| && LargestFirst(groups) && DistinctFamilies(groups)
    requires forall x :: x in groups ==> x.family != g.family
    requires forall q :: 0 <= q < p ==> Precedes(groups[q], g)
    requires forall q :: p <= q < |groups| ==> Precedes(g, groups[q])
    ensures var out := groups[..p] + [g] + groups[p..]; LargestFirst(out) && DistinctFamilies(out)
  {
    var out := groups[..p] + [g] + groups[p..];
    forall i, j | 0 <= i < j < |out| ensures Precedes(out[i], out[j]) && out[i].family != out[j].family {
      var a, b := if i < p then i else i - 1, if j < p then j else j - 1;
      if i != p { assert out[i] == groups[a] && groups[a] in groups; }
      if j != p { assert out[j] == groups[b] && groups[b] in groups; }
    }
  }

  /** The tally as a list, largest group first; ties fall in any order. */
  method RankGroups(ghost rows: set<Job>, tally: map<Family, Group>) returns (groups: seq<Group>)
    requires TallyOf(rows, tally)
    ensures Grouping(rows, groups) && LargestFirst(groups)
  {
    groups := Rank(tally);
    RankedAreAll(rows, tally, groups);
  }

  method Rank(tally: map<Family, Group>) returns (groups: seq<Group>)
    requires forall f :: f in tally ==> tally[f].family == f
    ensures LargestFirst(groups) && DistinctFamilies(groups) && Ranked(tally, tally.Keys, groups)
  {
    groups := [];
    var todo := tally.Keys;
    while todo != {}
      invariant todo <= tally.Keys
      invariant LargestFirst(groups) && DistinctFamilies(groups)
      invariant Ranked(tally, tally.Keys - todo, groups)
      decreases |todo|
    {
      var f :| f in todo;
      ghost var before := groups;
      groups := InsertGroup(groups, tally[f]);
      assert tally.Keys - (todo - {f}) == tally.Keys - todo + {f};
      RankedStep(tally, tally.Keys - todo, before, f, groups);
      todo := todo - {f};
    }
    assert tally.Keys - todo == tally.Keys;
  }

  /** The groups are those of the given families. */
  ghost predicate Ranked(tally: map<Family, Group>, families: set<Family>, groups: seq<Group>) {
    forall g :: g in groups <==> g.family in families && g.family in tally && g == tally[g.family]
  }

  lemma RankedStep(tally: map<Family, Group>, families: set<Family>, groups: seq<Group>, f: Family, out: seq<Group>)
    requires Ranked(tally, families, groups) && f in tally && tally[f].family == f
    requires forall x :: x in out <==> x in groups || x == tally[f]
    ensures Ranked(tally, families + {f}, out)
  {}

  lemma RankedAreAll(rows: set<Job>, tally: map<Family, Group>, groups: seq<Group>)
    requires TallyOf(rows, tally) && DistinctFamilies(groups)
    requires Ranked(tally, tally.Keys, groups)
    ensures Grouping(rows, groups)
  {
    forall j | j in rows ensures FamilyOf(j) in Families(groups) {
      var g := tally[FamilyOf(j)];
      assert g in groups;
      var i :| 0 <= i < |groups| && groups[i] == g;
      assert Families(groups)[i] == FamilyOf(j);
    }
  }

  // ---- Per-state counts -----------------------------------------------------------------

  function StateAt(jobs: map<string, Job>): string -> State {
    k => if k in jobs then jobs[k].state else Created
  }

  ghost function InState(jobs: map<string, Job>, s: State): set<string> {
    Class(jobs.Keys, StateAt(jobs), s)
  }

  /** The tally of the rows in `done`. */
  ghost predicate Counted(jobs: map<string, Job>, done: set<string>, counts: map<State, nat>) {
    forall s ::
      var rows := Class(done, StateAt(jobs), s);
      if s in counts then counts[s] == |rows| && counts[s] > 0 else rows == {}
  }

  ghost predicate CountsOf(jobs: map<string, Job>, counts: map<State, nat>) {
    Counted(jobs, jobs.Keys, counts)
  }

  lemma CountedStep(jobs: map<string, Job>, done: set<string>, counts: map<State, nat>, key: string)
    requires key in jobs && key !in done && Counted(jobs, done, counts)
    ensures var state := jobs[key].state;
      Counted(jobs, done + {key}, counts[state := (if state in counts then counts[state] else 0) + 1])
  {
    forall s
      ensures Class(done + {key}, StateAt(jobs), s) ==
              if jobs[key].state == s then Class(done, StateAt(jobs), s) + {key} else Class(done, StateAt(jobs), s)
    {
      ClassInsert(done, StateAt(jobs), key, s);
    }
  }

  ghost function Total(counts: map<State, nat>, states: seq<State>): nat
    requires forall s :: s in states ==> s in counts
  {
    if |states| == 0 then 0 else Total(counts, states[..|states| - 1]) + counts[states[|states| - 1]]
  }

  lemma {:induction false} TotalIsSumSizes(jobs: map<string, Job>, counts: map<State, nat>, states: seq<State>)
    requires CountsOf(jobs, counts) && forall s :: s in states ==> s in counts
    ensures Total(counts, states) == SumSizes(jobs.Keys, StateAt(jobs), states)
  {
    if |states| > 0 {
      TotalIsSumSizes(jobs, counts, states[..|states| - 1]);
    }
  }

  /** The tally over all states that occur is the number of rows. */
  lemma CountsConserve(jobs: map<string, Job>, counts: map<State, nat>, states: seq<State>)
    requires CountsOf(jobs, counts) && Distinct(states)
    requires forall s :: s in states <==> s in counts
    ensures Total(counts, states) == |jobs|
  {
    TotalIsSumSizes(jobs, counts, states);
    SizesAddUp(jobs.Keys, StateAt(jobs), states);
    forall k | k in jobs ensures jobs[k].state in states {
      assert k in InState(jobs, jobs[k].state);
    }
    assert Classified(jobs.Keys, StateAt(jobs), states) == jobs.Keys;
  }

  /** Each tally is what CountJobs answers for that state alone. */
  lemma CountsAgree(jobs: map<string, Job>, counts: map<State, nat>, s: State)
    requires CountsOf(jobs, counts)
    ensures (if s in counts then counts[s] else 0)
         == |MatchingKeys(jobs, Filter("", "", "", [s], "", 0, "", "", 0, 0))|
  {
    var f := Filter("", "", "", [s], "", 0, "", "", 0, 0);
    assert Lower("") == "";
    assert MatchingKeys(jobs, f) == InState(jobs, s);
  }
}
