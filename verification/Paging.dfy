/** Paginated listings (web/handler.go, list). */
module Paging {
  import opened Bands
  import opened Int64
  import opened Records
  import opened Merging
  import opened History
  import HistoryRuns
  import opened Filters
  import opened Listing
  import opened MemoryStores

  const PER_PAGE := 50

  /** The `before` query parameter: absent, present but unreadable, or an instant. */
  datatype Window = Live | Unreadable | Frozen(at: Time)

  datatype View = View(jobs: seq<Job>, filter: Filter, total: nat, page: int, pages: int, first: nat, last: nat)

  function PageCount(total: nat): (pages: int)
    ensures pages >= 1
    ensures (pages - 1) * PER_PAGE < total || pages == 1
    ensures total <= pages * PER_PAGE
  {
    if total == 0 then 1 else (total + PER_PAGE - 1) / PER_PAGE
  }

  /** The rows of one page of a listing. */
  function Page(list: seq<Job>, page: int): seq<Job>
    requires 1 <= page <= PageCount(|list|)
  {
    var from := (page - 1) * PER_PAGE;
    if |list| - from > PER_PAGE then list[from..from + PER_PAGE] else list[from..]
  }

  function Clamp(page: int, pages: int): int {
    if page > pages then pages else page
  }

  /** The window a request reads through. */
  function WindowOf(filter: Filter, page: int, window: Window, now: Time): Time {
    match window
    case Frozen(at) => at
    case Unreadable => filter.before
    case Live => if page > 1 then now else filter.before
  }

  /** The page asked for, and the query it starts from; its offset may have wrapped around. */
  method Ask(filter: Filter, requested: Option<int>, window: Window, now: Time) returns (page: int, query: Filter)
    ensures page == if requested.Some? && requested.value > 1 then requested.value else 1
    ensures query == filter.(limit := PER_PAGE, offset := Wrap64((page - 1) * PER_PAGE),
                             before := WindowOf(filter, page, window, now))
    ensures window.Frozen? ==> query.before == window.at
    ensures window.Live? && page > 1 ==> query.before == now
    ensures window.Unreadable? || (window.Live? && page == 1) ==> query.before == filter.before
  {
    page := 1;
    if requested.Some? && requested.value > 1 {
      page := requested.value;
    }
    var before := filter.before;
    if window.Frozen? {
      before := window.at;
    } else if window.Live? && page > 1 {
      before := now;
    }
    query := filter.(limit := PER_PAGE, offset := Wrap64((page - 1) * PER_PAGE), before := before);
  }

  /** `requested` is the parsed page number, if it parsed.  `counted` and `store` are the
      store at its two readings, which lock it separately; when the matching rows have not
      changed in between, the view shows a page of the listing it counted.  A store of 2^63
      rows or more is out of reach of a 64-bit machine. */
  method List(counted: MemoryStore, store: MemoryStore, filter: Filter, requested: Option<int>, window: Window, now: Time)
    returns (view: View)
    requires counted.Valid() && store.Valid() && |counted.jobs| + PER_PAGE <= TWO_63
    ensures var asked := if requested.Some? && requested.value > 1 then requested.value else 1;
      var total, listed := |counted.Listed(view.filter)|, store.Listed(view.filter);
      && view.filter.before == WindowOf(filter, asked, window, now)
      && view.filter == filter.(limit := PER_PAGE, offset := view.filter.offset, before := view.filter.before)
      && view.total == total && view.pages == PageCount(total)
      && view.page == Clamp(asked, view.pages) && view.filter.offset == (view.page - 1) * PER_PAGE >= 0
      && view.jobs == PageOf(listed, view.filter.offset, PER_PAGE)
      && (MatchingRows(counted.jobs, view.filter) == MatchingRows(store.jobs, view.filter) ==>
            total == |listed| && view.jobs == Page(listed, view.page))
      && view.last == view.filter.offset + |view.jobs|
      && view.first == if |view.jobs| > 0 then view.filter.offset + 1 else 0
  {
    var page, query := Ask(filter, requested, window, now);
    var total := counted.CountJobs(query);
    MatchingFits(counted, query);
    var pages, offset;
    page, pages, offset := Locate(page, query.offset, total);
    query := query.(offset := offset);
    var found := store.Jobs(query);
    var jobs := found.value;
    if MatchingRows(counted.jobs, query) == MatchingRows(store.jobs, query) {
      PageIsPage(store.Listed(query), page);
    }
    var first := 0;
    if |jobs| > 0 {
      first := query.offset + 1;
    }
    view := View(jobs, query, total, page, pages, first, query.offset + |jobs|);
  }

  /** The page count, and the page and offset it leaves: a page number past the end
      lands on the last page, and the offset is in range even when the product that
      first computed it wrapped around. */
  method Locate(asked: int, wrapped: int, total: nat) returns (page: int, pages: int, offset: int)
    requires asked >= 1 && total + PER_PAGE <= TWO_63
    requires wrapped == Wrap64((asked - 1) * PER_PAGE)
    ensures pages == PageCount(total) && page == Clamp(asked, pages)
    ensures offset == (page - 1) * PER_PAGE && 0 <= offset && (offset < total || offset == 0)
  {
    page, offset := asked, wrapped;
    pages := Wrap64(total + PER_PAGE - 1) / PER_PAGE;
    if pages == 0 {
      pages := 1;
    }
    if page > pages {
      page := pages;
      offset := Wrap64((page - 1) * PER_PAGE);
    }
  }

  lemma PageIsPage(list: seq<Job>, page: int)
    requires 1 <= page <= PageCount(|list|)
    ensures PageOf(list, (page - 1) * PER_PAGE, PER_PAGE) == Page(list, page)
  {
    var from := (page - 1) * PER_PAGE;
    if from >= |list| {
      assert list[from..] == [];
    }
  }

  /** A listing has one row per matching key, and never more than the store. */
  lemma MatchingFits(store: MemoryStore, filter: Filter)
    requires store.Valid()
    ensures |store.Listed(filter)| == |MatchingKeys(store.jobs, filter)| <= |store.jobs|
    ensures forall offset :: |store.Listed(filter.(offset := offset))| == |MatchingKeys(store.jobs, filter)|
  {
    forall offset ensures |store.Listed(filter.(offset := offset))| == |MatchingKeys(store.jobs, filter)| {
      var g := filter.(offset := offset);
      SameMatches(store.jobs, filter, g);
      var rows := MatchingRows(store.jobs, g);
      RowsDistinct(store.jobs, MatchingKeys(store.jobs, g));
      ListingIsSorted(rows);
      EnumeratesMembers(NewestFirst(rows), rows);
      RowsCount(store.jobs, MatchingKeys(store.jobs, g));
    }
    assert filter == filter.(offset := filter.offset);
    assert MatchingKeys(store.jobs, filter) <= store.jobs.Keys;
    SubsetSize(MatchingKeys(store.jobs, filter), store.jobs.Keys);
  }

  lemma SubsetSize<T>(a: set<T>, b: set<T>)
    requires a <= b
    ensures |a| <= |b|
  {
    assert b == a + (b - a);
  }

  lemma SameMatches(jobs: map<string, Job>, f: Filter, g: Filter)
    requires f.(offset := 0) == g.(offset := 0)
    ensures MatchingKeys(jobs, f) == MatchingKeys(jobs, g)
  {
    forall j ensures Matches(f, j) == Matches(g, j) {}
  }

  // ---- Reading a frozen window page by page ------------------------------------------

  function PagesUpTo(list: seq<Job>, n: nat): seq<Job>
    requires n <= PageCount(|list|)
  {
    if n == 0 then [] else PagesUpTo(list, n - 1) + Page(list, n)
  }

  lemma NextPage(list: seq<Job>, n: nat)
    requires 1 <= n <= PageCount(|list|)
    ensures var from := (n - 1) * PER_PAGE;
      && from <= |list|
      && list[..from] + Page(list, n) == if from + PER_PAGE <= |list| then list[..from + PER_PAGE] else list
  {
    var from := (n - 1) * PER_PAGE;
    if |list| - from > PER_PAGE {
      assert list[..from] + list[from..from + PER_PAGE] == list[..from + PER_PAGE];
    } else {
      assert list[..from] + list[from..] == list;
      assert list[..|list|] == list;
    }
  }

  lemma {:induction false} PagesAreAPrefix(list: seq<Job>, n: nat)
    requires n <= PageCount(|list|)
    ensures PagesUpTo(list, n) == if n * PER_PAGE <= |list| then list[..n * PER_PAGE] else list
  {
    if n > 0 {
      PagesAreAPrefix(list, n - 1);
      NextPage(list, n);
    }
  }

  /** Frozen-window paging: pages 1..Pages, read one after another, show every matching
      row exactly once, newest first. */
  lemma PagesCoverListing(rows: set<Job>)
    requires DistinctKeys(rows)
    ensures var all := PagesUpTo(NewestFirst(rows), PageCount(|NewestFirst(rows)|));
      all == NewestFirst(rows) && Enumerates(all, rows) && Sorted(all)
  {
    var list := NewestFirst(rows);
    PagesAreAPrefix(list, PageCount(|list|));
    ListingIsSorted(rows);
    assert |list| <= PageCount(|list|) * PER_PAGE;
    if PageCount(|list|) * PER_PAGE == |list| {
      assert list[..|list|] == list;
    }
  }

  /** A page shows fifty rows: 120 of them take three pages, and the last shows the last twenty. */
  lemma ThirdPage(list: seq<Job>)
    requires |list| == 120
    ensures PageCount(120) == 3
    ensures Page(list, 1) == list[..50] && Page(list, 2) == list[50..100] && Page(list, 3) == list[100..]
  {
    assert list[0..50] == list[..50];
  }

  /** Rows inside a window. */
  ghost function Within(jobs: map<string, Job>, before: Time): map<string, Job> {
    map k | k in jobs && jobs[k].enqueuedAt <= before :: jobs[k]
  }

  /** Whatever arrives outside the window, or leaves it, moves no page: two stores that
      agree inside the window list the same rows. */
  lemma FrozenWindow(jobs: map<string, Job>, other: map<string, Job>, f: Filter)
    requires f.before != 0
    requires Within(jobs, f.before) == Within(other, f.before)
    ensures MatchingRows(jobs, f) == MatchingRows(other, f)
  {
    forall k ensures k in MatchingKeys(jobs, f) ==> k in MatchingKeys(other, f) && jobs[k] == other[k] {
      if k in MatchingKeys(jobs, f) {
        assert k in Within(jobs, f.before) && k in Within(other, f.before);
      }
    }
    forall k ensures k in MatchingKeys(other, f) ==> k in MatchingKeys(jobs, f) && jobs[k] == other[k] {
      if k in MatchingKeys(other, f) {
        assert k in Within(other, f.before) && k in Within(jobs, f.before);
      }
    }
  }

  // ---- Arrivals ----------------------------------------------------------------------

  /** The enqueue time that a job's events leave on its row: the first one set, or none. */
  function FirstEnqueued(own: seq<Job>): Time {
    if |own| == 0 then 0 else First(0, FirstEnqueued(own[..|own| - 1]), own[|own| - 1].enqueuedAt)
  }

  lemma {:induction false} RowEnqueued(own: seq<Job>)
    ensures var r := Fold(Merge, None, own); if |own| == 0 then r == None else r.Some? && r.value.enqueuedAt == FirstEnqueued(own)
  {
    if |own| > 0 {
      RowEnqueued(own[..|own| - 1]);
    }
  }

  function NewKeys(batch: seq<Job>): set<string> {
    set j | j in batch :: JobKey(j)
  }

  /** A new job stays out of a listing: the first enqueue time among its events lies past the
      window, or the row they make fails another condition of the filter. */
  ghost predicate KeptOut(f: Filter, own: seq<Job>) {
    FirstEnqueued(own) > f.before ||
    (var r := Fold(Merge, None, own); r.Some? && !Matches(f.(before := 0), r.value))
  }

  lemma KeptOutIff(f: Filter, own: seq<Job>)
    requires f.before != 0 && own != []
    ensures Fold(Merge, None, own).Some?
    ensures KeptOut(f, own) <==> !Matches(f, Fold(Merge, None, own).value)
  {
    RowEnqueued(own);
  }

  lemma OwnIsNew(batch: seq<Job>, k: string)
    ensures Own(k, batch) != [] <==> k in NewKeys(batch)
    ensures forall j :: j in Own(k, batch) ==> j.key == k
  {
    if Own(k, batch) == [] {
      forall j | j in batch ensures JobKey(j) != k {
        var i :| 0 <= i < |batch| && batch[i] == j;
        assert JobKey(batch[i]) == k ==> Prepare(batch[i]) in Own(k, batch);
      }
    } else {
      assert Own(k, batch)[0] in Own(k, batch);
    }
  }

  /** The rows after a batch of new jobs: the old ones, and one per new key. */
  lemma ArrivalRows(jobs: map<string, Job>, batch: seq<Job>, k: string)
    requires forall j :: j in batch ==> JobKey(j) !in jobs
    ensures Get(UpsertAll(jobs, batch), k) ==
      if k in NewKeys(batch) then Fold(Merge, None, Own(k, batch)) else Get(jobs, k)
    ensures k in NewKeys(batch) ==> k !in jobs && Get(UpsertAll(jobs, batch), k).Some? && UpsertAll(jobs, batch)[k].key == k
  {
    UpsertProjects(jobs, batch, k);
    OwnIsNew(batch, k);
    if k in NewKeys(batch) {
      RowEnqueued(Own(k, batch));
      HistoryRuns.FoldKeepsKey(None, Own(k, batch), k);
    }
  }

  /** The frozen window against arrivals.  A batch of new jobs, however large, leaves the
      matching rows, hence every page, as they were if and only if each of the jobs has a set
      enqueue time past the window, the first that its events report, or fails another
      condition of the filter. */
  lemma ArrivalsMoveNoPageIff(jobs: map<string, Job>, batch: seq<Job>, f: Filter)
    requires Keyed(jobs) && f.before != 0
    requires forall j :: j in batch ==> JobKey(j) !in jobs
    ensures MatchingRows(UpsertAll(jobs, batch), f) == MatchingRows(jobs, f)
       <==> forall k :: k in NewKeys(batch) ==> KeptOut(f, Own(k, batch))
  {
    var after := UpsertAll(jobs, batch);
    if forall k :: k in NewKeys(batch) ==> KeptOut(f, Own(k, batch)) {
      KeptOutMovesNothing(jobs, batch, f);
    } else {
      var k :| k in NewKeys(batch) && !KeptOut(f, Own(k, batch));
      ArrivalMatches(jobs, batch, f, k);
      ArrivalRows(jobs, batch, k);
      assert after[k] in MatchingRows(after, f);
      assert forall x :: x in MatchingRows(jobs, f) ==> x.key in jobs;
    }
  }

  lemma KeptOutMovesNothing(jobs: map<string, Job>, batch: seq<Job>, f: Filter)
    requires f.before != 0 && forall j :: j in batch ==> JobKey(j) !in jobs
    requires forall k :: k in NewKeys(batch) ==> KeptOut(f, Own(k, batch))
    ensures MatchingRows(UpsertAll(jobs, batch), f) == MatchingRows(jobs, f)
  {
    var after := UpsertAll(jobs, batch);
    forall k ensures k in MatchingKeys(after, f) <==> k in MatchingKeys(jobs, f)
             ensures k in MatchingKeys(jobs, f) ==> after[k] == jobs[k]
    {
      ArrivalMatches(jobs, batch, f, k);
    }
    SameRows(after, jobs, MatchingKeys(jobs, f));
  }

  lemma SameRows(a: map<string, Job>, b: map<string, Job>, keys: set<string>)
    requires forall k :: k in keys ==> k in a && k in b && a[k] == b[k]
    ensures Rows(a, keys) == Rows(b, keys)
  {}

  lemma ArrivalMatches(jobs: map<string, Job>, batch: seq<Job>, f: Filter, k: string)
    requires f.before != 0 && forall j :: j in batch ==> JobKey(j) !in jobs
    ensures k in NewKeys(batch) ==> (k in MatchingKeys(UpsertAll(jobs, batch), f) <==> !KeptOut(f, Own(k, batch)))
    ensures k !in NewKeys(batch) ==>
      && (k in MatchingKeys(UpsertAll(jobs, batch), f) <==> k in MatchingKeys(jobs, f))
      && (k in jobs ==> k in UpsertAll(jobs, batch) && UpsertAll(jobs, batch)[k] == jobs[k])
  {
    var after := UpsertAll(jobs, batch);
    ArrivalRows(jobs, batch, k);
    assert k in after <==> Get(after, k).Some?;
    if k in NewKeys(batch) {
      OwnIsNew(batch, k);
      KeptOutIff(f, Own(k, batch));
    }
  }

  lemma {:induction false} EnqueuedPast(own: seq<Job>, before: Time)
    requires before >= 0 && |own| > 0 && forall j :: j in own ==> j.enqueuedAt > before
    ensures FirstEnqueued(own) > before
  {
    assert own[|own| - 1] in own;
    if |own| > 1 {
      EnqueuedPast(own[..|own| - 1], before);
    }
  }

  /** So jobs whose every event carries an enqueue time past the window move no page. */
  lemma ArrivalsMoveNoPage(jobs: map<string, Job>, batch: seq<Job>, f: Filter)
    requires f.before > 0
    requires forall j :: j in batch ==> JobKey(j) !in jobs && j.enqueuedAt > f.before
    ensures MatchingRows(UpsertAll(jobs, batch), f) == MatchingRows(jobs, f)
  {
    forall k | k in NewKeys(batch) ensures KeptOut(f, Own(k, batch)) {
      OwnIsNew(batch, k);
      forall j | j in Own(k, batch) ensures j.enqueuedAt > f.before {
        var i :| 0 <= i < |batch| && JobKey(batch[i]) == k && j == Prepare(batch[i]);
        assert batch[i] in batch;
      }
      EnqueuedPast(Own(k, batch), f.before);
    }
    KeptOutMovesNothing(jobs, batch, f);
  }

  /** The job record that an attempt event lifts its number onto: it carries no enqueue time. */
  function LiftedAttempt(epoch: string, queue: string, id: string, rootId: string, attempt: int): Job {
    Job("", id, epoch, queue, "", Active, "", "", rootId, "", map[], 0, 0, 0, 0, 0, attempt, Progress(0, 0, "", 0))
  }

  /** And a job first heard of through an attempt event, which hooks may deliver or keep before
      any other, does enter every window: no filter without other conditions keeps it out. */
  lemma AttemptEntersWindow(jobs: map<string, Job>, epoch: string, queue: string, id: string, rootId: string, attempt: int,
                            before: Time)
    requires Keyed(jobs) && before > 0 && KeyFor(epoch, queue, id) !in jobs
    ensures var f, j := Filter("", "", "", [], "", before, "", "", PER_PAGE, 0), LiftedAttempt(epoch, queue, id, rootId, attempt);
      && Prepare(j) !in MatchingRows(jobs, f)
      && Prepare(j) in MatchingRows(UpsertAll(jobs, [j]), f)
  {
    var f, j := Filter("", "", "", [], "", before, "", "", PER_PAGE, 0), LiftedAttempt(epoch, queue, id, rootId, attempt);
    FoldLeftOne(UpsertOne, jobs, j);
    var after := UpsertAll(jobs, [j]);
    assert Lower("") == "" && Fields("") == [];
    assert JobKey(j) in MatchingKeys(after, f) && after[JobKey(j)] == Prepare(j);
    assert forall x :: x in MatchingRows(jobs, f) ==> x.key in jobs;
  }
}
