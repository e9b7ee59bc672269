/** The fixed-window login limiter (attemptLimiter in web/login.go).  The clock is a
parameter: each call carries the instant it reads. */
module Limiter {
  import opened Bands
  import opened Records
  import opened History

  datatype Window = Window(count: int, until: Time)

  /** One client's window after an attempt, and the verdict. */
  function Admit(burst: int, window: int, w: Option<Window>, now: Time): (Window, bool) {
    if w.None? || now > w.value.until then (Window(1, now + window), true)
    else (Window(w.value.count + 1, w.value.until), w.value.count + 1 <= burst)
  }

  /** The windows still open at `now`. */
  function Swept(seen: map<string, Window>, now: Time): map<string, Window> {
    map k | k in seen && now <= seen[k].until :: seen[k]
  }

  /** One call against the shared table: sweep everyone, then admit the caller. */
  function Allowed(burst: int, window: int, seen: map<string, Window>, client: string, now: Time)
    : (map<string, Window>, bool)
  {
    var live := Swept(seen, now);
    var verdict := Admit(burst, window, Get(live, client), now);
    (live[client := verdict.0], verdict.1)
  }

  class AttemptLimiter {
    const burst: int
    const window: int
    var seen: map<string, Window>

    constructor (burst: int, window: int)
      ensures this.burst == burst && this.window == window && seen == map[]
    {
      this.burst, this.window, seen := burst, window, map[];
    }

    method Allow(client: string, now: Time) returns (ok: bool)
      modifies this
      ensures (seen, ok) == Allowed(burst, window, old(seen), client, now)
    {
      var todo := seen.Keys;
      while todo != {}
        invariant todo <= old(seen).Keys
        invariant seen == map k | k in old(seen) && (k in todo || now <= old(seen)[k].until) :: old(seen)[k]
      {
        var key :| key in todo;
        if now > seen[key].until {
          seen := seen - {key};
        }
        todo := todo - {key};
      }
      assert seen == Swept(old(seen), now);
      if client !in seen || now > seen[client].until {
        seen := seen[client := Window(1, now + window)];
        return true;
      }
      seen := seen[client := seen[client].(count := seen[client].count + 1)];
      return seen[client].count <= burst;
    }
  }

  // ---- Whole runs --------------------------------------------------------------------------

  datatype Call = Call(client: string, now: Time)

  datatype Run = Run(seen: map<string, Window>, verdicts: seq<bool>)

  function Play(burst: int, window: int, calls: seq<Call>): (r: Run)
    ensures |r.verdicts| == |calls|
  {
    if |calls| == 0 then Run(map[], [])
    else
      var m := |calls| - 1;
      var before := Play(burst, window, calls[..m]);
      var step := Allowed(burst, window, before.seen, calls[m].client, calls[m].now);
      Run(step.0, before.verdicts + [step.1])
  }

  ghost predicate Ordered(times: seq<Time>) {
    forall i, j :: 0 <= i < j < |times| ==> times[i] <= times[j]
  }

  /** The clock never runs backwards. */
  ghost predicate Clocked(calls: seq<Call>) {
    forall i, j :: 0 <= i < j < |calls| ==> calls[i].now <= calls[j].now
  }

  /** The instants of one client's calls. */
  function Times(calls: seq<Call>, client: string): seq<Time> {
    if |calls| == 0 then []
    else
      var m := |calls| - 1;
      Times(calls[..m], client) + if calls[m].client == client then [calls[m].now] else []
  }

  /** That client's calls alone. */
  function Own(calls: seq<Call>, client: string): seq<Call> {
    if |calls| == 0 then []
    else
      var m := |calls| - 1;
      Own(calls[..m], client) + if calls[m].client == client then [calls[m]] else []
  }

  /** The verdicts that client saw. */
  function Verdicts(calls: seq<Call>, verdicts: seq<bool>, client: string): seq<bool>
    requires |calls| == |verdicts|
  {
    if |calls| == 0 then []
    else
      var m := |calls| - 1;
      Verdicts(calls[..m], verdicts[..m], client) + if calls[m].client == client then [verdicts[m]] else []
  }

  datatype Trace = Trace(w: Option<Window>, verdicts: seq<bool>)

  /** One client with a limiter to itself: no table, no sweep. */
  function Track(burst: int, window: int, times: seq<Time>): (r: Trace)
    ensures |r.verdicts| == |times| && (r.w.None? <==> |times| == 0)
  {
    if |times| == 0 then Trace(None, [])
    else
      var m := |times| - 1;
      var before := Track(burst, window, times[..m]);
      var step := Admit(burst, window, before.w, times[m]);
      Trace(Some(step.0), before.verdicts + [step.1])
  }

  // ---- Clients do not disturb each other -----------------------------------------------------

  function Open(w: Option<Window>, now: Time): Option<Window> {
    if w.Some? && now <= w.value.until then w else None
  }

  /** From `now` on, the table and the client's own window give the same verdicts. */
  ghost predicate Consistent(seen: map<string, Window>, client: string, w: Option<Window>, now: Time) {
    forall t :: t >= now ==> Open(Get(seen, client), t) == Open(w, t)
  }

  lemma ConsistentStep(burst: int, window: int, seen: map<string, Window>, client: string, w: Option<Window>,
                       was: Time, caller: string, now: Time)
    requires was <= now && Consistent(seen, client, w, was)
    ensures var step := Allowed(burst, window, seen, caller, now);
      if caller == client
      then Get(step.0, client) == Some(Admit(burst, window, w, now).0) && step.1 == Admit(burst, window, w, now).1
      else Consistent(step.0, client, w, now)
  {
    assert Open(Get(seen, client), now) == Open(w, now);
    assert Get(Swept(seen, now), client) == Open(w, now);
    if caller != client {
      var after := Allowed(burst, window, seen, caller, now).0;
      forall t | t >= now ensures Open(Get(after, client), t) == Open(w, t) {
        assert Open(Get(seen, client), t) == Open(w, t);
      }
    }
  }

  lemma TimesStep(calls: seq<Call>, client: string)
    requires |calls| > 0
    ensures var m := |calls| - 1;
      Times(calls, client) == if calls[m].client == client then Times(calls[..m], client) + [calls[m].now]
                              else Times(calls[..m], client)
  {}

  lemma TrackStep(burst: int, window: int, times: seq<Time>, now: Time)
    ensures var before, after := Track(burst, window, times), Track(burst, window, times + [now]);
      var step := Admit(burst, window, before.w, now);
      after.w == Some(step.0) && after.verdicts == before.verdicts + [step.1]
  {
    assert (times + [now])[..|times|] == times;
  }

  /** The latest instant of a run, or any earlier bound for an empty one. */
  function Last(calls: seq<Call>, start: Time): Time {
    if |calls| == 0 then start else calls[|calls| - 1].now
  }

  lemma {:induction false} TableFollowsClient(burst: int, window: int, calls: seq<Call>, client: string)
    requires Clocked(calls)
    ensures var run, own := Play(burst, window, calls), Track(burst, window, Times(calls, client));
      && Verdicts(calls, run.verdicts, client) == own.verdicts
      && (forall start: Time {:trigger Last(calls, start)} :: Consistent(run.seen, client, own.w, Last(calls, start)))
  {
    if |calls| > 0 {
      var m := |calls| - 1;
      var c := calls[m];
      TableFollowsClient(burst, window, calls[..m], client);
      var before := Play(burst, window, calls[..m]);
      var own := Track(burst, window, Times(calls[..m], client));
      assert Last(calls[..m], c.now) <= c.now;
      ConsistentStep(burst, window, before.seen, client, own.w, Last(calls[..m], c.now), c.client, c.now);
      TimesStep(calls, client);
      TrackStep(burst, window, Times(calls[..m], client), c.now);
      assert Play(burst, window, calls).verdicts[..m] == before.verdicts;
    }
  }

  lemma {:induction false} OwnTimes(calls: seq<Call>, client: string)
    ensures Times(Own(calls, client), client) == Times(calls, client)
  {
    if |calls| > 0 {
      var m := |calls| - 1;
      OwnTimes(calls[..m], client);
      if calls[m].client == client {
        assert Own(calls, client)[..|Own(calls[..m], client)|] == Own(calls[..m], client);
        TimesStep(Own(calls, client), client);
      } else {
        assert Own(calls, client) == Own(calls[..m], client);
      }
    }
  }

  lemma {:induction false} OwnClocked(calls: seq<Call>, client: string)
    requires Clocked(calls)
    ensures Clocked(Own(calls, client))
    ensures forall c :: c in Own(calls, client) ==> c.now <= Last(calls, c.now)
  {
    if |calls| > 0 {
      var m := |calls| - 1;
      var front := Own(calls[..m], client);
      OwnClocked(calls[..m], client);
      assert forall c :: c in front ==> c.now <= Last(calls[..m], c.now) <= calls[m].now;
      forall i | 0 <= i < |front| ensures front[i].now <= calls[m].now {
        assert front[i] in front;
      }
    }
  }

  /** A client's verdicts are those it would get if no other client ever called. */
  lemma ClientIsolated(burst: int, window: int, calls: seq<Call>, client: string)
    requires Clocked(calls)
    ensures Verdicts(calls, Play(burst, window, calls).verdicts, client)
         == Verdicts(Own(calls, client), Play(burst, window, Own(calls, client)).verdicts, client)
  {
    TableFollowsClient(burst, window, calls, client);
    OwnTimes(calls, client);
    OwnClocked(calls, client);
    TableFollowsClient(burst, window, Own(calls, client), client);
  }

  // ---- How many attempts get through -----------------------------------------------------------

  function Hit(approved: bool, t: Time, lo: Time, hi: Time): nat {
    if approved && lo <= t <= hi then 1 else 0
  }

  /** Approvals in the closed interval [lo, hi]. */
  function Approvals(times: seq<Time>, verdicts: seq<bool>, lo: Time, hi: Time): nat
    requires |times| == |verdicts|
  {
    if |times| == 0 then 0
    else
      var m := |times| - 1;
      Approvals(times[..m], verdicts[..m], lo, hi) + Hit(verdicts[m], times[m], lo, hi)
  }

  /** What a fixed window can let through: a burst of one is spent by the opening attempt. */
  function Quota(burst: int): int {
    if burst < 1 then 1 else burst
  }

  function Spent(count: int, burst: int): int {
    if count < Quota(burst) then count else Quota(burst)
  }

  /** Approvals in [lo, lo + window] so far, by where the current window opened. */
  ghost predicate Budget(burst: int, window: int, w: Window, last: Time, lo: Time, total: int) {
    var start, m := w.until - window, Quota(burst);
    && w.count >= 1
    && start <= last
    && (total > 0 ==> last >= lo)
    && total <= (if start < lo then Spent(w.count, burst) - 1
                 else if start <= lo + window then m - 1 + Spent(w.count, burst)
                 else 2 * m - 1)
  }

  lemma BudgetStep(burst: int, window: int, w: Window, last: Time, lo: Time, total: int, now: Time)
    requires window >= 0 && last <= now && Budget(burst, window, w, last, lo, total)
    ensures var step := Admit(burst, window, Some(w), now);
      Budget(burst, window, step.0, now, lo, total + Hit(step.1, now, lo, lo + window))
  {}

  /** Tracking one more attempt adds at most that one approval. */
  lemma ApprovalsLast(burst: int, window: int, times: seq<Time>, lo: Time, hi: Time)
    requires |times| > 0
    ensures var m := |times| - 1;
      var before, r := Track(burst, window, times[..m]), Track(burst, window, times);
      Approvals(times, r.verdicts, lo, hi)
        == Approvals(times[..m], before.verdicts, lo, hi)
         + Hit(Admit(burst, window, before.w, times[m]).1, times[m], lo, hi)
  {
    var m := |times| - 1;
    assert Track(burst, window, times).verdicts[..m] == Track(burst, window, times[..m]).verdicts;
  }

  lemma {:induction false} BudgetHolds(burst: int, window: int, times: seq<Time>, lo: Time)
    requires window >= 0 && Ordered(times) && |times| > 0
    ensures var r := Track(burst, window, times);
      Budget(burst, window, r.w.value, times[|times| - 1], lo, Approvals(times, r.verdicts, lo, lo + window))
  {
    var m := |times| - 1;
    var before := Track(burst, window, times[..m]);
    ApprovalsLast(burst, window, times, lo, lo + window);
    if m > 0 {
      BudgetHolds(burst, window, times[..m], lo);
      BudgetStep(burst, window, before.w.value, times[m - 1], lo,
                 Approvals(times[..m], before.verdicts, lo, lo + window), times[m]);
    }
  }

  lemma {:induction false} EmptyInterval(times: seq<Time>, verdicts: seq<bool>, lo: Time, hi: Time)
    requires |times| == |verdicts| && hi < lo
    ensures Approvals(times, verdicts, lo, hi) == 0
  {
    if |times| > 0 {
      EmptyInterval(times[..|times| - 1], verdicts[..|times| - 1], lo, hi);
    }
  }

  /** With no window at all, only attempts at one and the same instant share a count. */
  ghost predicate InstantBudget(burst: int, w: Window, last: Time, lo: Time, total: int) {
    && w.count >= 1 && w.until <= last
    && total <= (if w.until < lo then 0 else if w.until == lo then Spent(w.count, burst) else Quota(burst))
  }

  lemma InstantStep(burst: int, w: Window, last: Time, lo: Time, total: int, now: Time)
    requires last <= now && InstantBudget(burst, w, last, lo, total)
    ensures var step := Admit(burst, 0, Some(w), now);
      InstantBudget(burst, step.0, now, lo, total + Hit(step.1, now, lo, lo))
  {}

  lemma {:induction false} InstantHolds(burst: int, times: seq<Time>, lo: Time)
    requires Ordered(times) && |times| > 0
    ensures var r := Track(burst, 0, times);
      InstantBudget(burst, r.w.value, times[|times| - 1], lo, Approvals(times, r.verdicts, lo, lo))
  {
    var m := |times| - 1;
    var before := Track(burst, 0, times[..m]);
    ApprovalsLast(burst, 0, times, lo, lo);
    if m > 0 {
      InstantHolds(burst, times[..m], lo);
      InstantStep(burst, before.w.value, times[m - 1], lo, Approvals(times[..m], before.verdicts, lo, lo), times[m]);
    }
  }

  /** The most approvals that a closed interval as long as the window can hold. */
  function Most(burst: int, window: int): int {
    if window < 0 then 0 else if window == 0 then Quota(burst) else 2 * Quota(burst) - 1
  }

  lemma TrackBounded(burst: int, window: int, times: seq<Time>, lo: Time)
    requires Ordered(times)
    ensures Approvals(times, Track(burst, window, times).verdicts, lo, lo + window) <= Most(burst, window)
  {
    if window < 0 {
      EmptyInterval(times, Track(burst, window, times).verdicts, lo, lo + window);
    } else if |times| > 0 {
      if window == 0 {
        InstantHolds(burst, times, lo);
      } else {
        BudgetHolds(burst, window, times, lo);
      }
    }
  }

  lemma {:induction false} TimesOrdered(calls: seq<Call>, client: string)
    requires Clocked(calls)
    ensures Ordered(Times(calls, client))
    ensures forall t :: t in Times(calls, client) ==> exists i :: 0 <= i < |calls| && calls[i].now == t
  {
    if |calls| > 0 {
      var m := |calls| - 1;
      var front := Times(calls[..m], client);
      TimesOrdered(calls[..m], client);
      forall t | t in front ensures exists i :: 0 <= i < |calls| && calls[i].now == t {
        var i :| 0 <= i < m && calls[..m][i].now == t;
        assert calls[i].now == t;
      }
      forall i | 0 <= i < |front| ensures front[i] <= calls[m].now {
        assert front[i] in front;
      }
    }
  }

  /** Over any run of any clients, no closed interval as long as the window holds more than
      2 * burst - 1 approvals of one client (a burst under 1 counts as 1). */
  lemma ApprovalsBounded(burst: int, window: int, calls: seq<Call>, client: string, lo: Time)
    requires Clocked(calls)
    ensures var times := Times(calls, client);
      var verdicts := Verdicts(calls, Play(burst, window, calls).verdicts, client);
      |times| == |verdicts| && Approvals(times, verdicts, lo, lo + window) <= Most(burst, window) <= 2 * Quota(burst) - 1
  {
    TableFollowsClient(burst, window, calls, client);
    TimesOrdered(calls, client);
    TrackBounded(burst, window, Times(calls, client), lo);
  }

  // ---- The bound is met ------------------------------------------------------------------------

  function Repeat(t: Time, n: nat): (s: seq<Time>)
    ensures |s| == n && forall i :: 0 <= i < n ==> s[i] == t
  {
    seq(n, _ => t)
  }

  lemma ApprovalsStep(times: seq<Time>, verdicts: seq<bool>, t: Time, ok: bool, lo: Time, hi: Time)
    requires |times| == |verdicts|
    ensures Approvals(times + [t], verdicts + [ok], lo, hi) == Approvals(times, verdicts, lo, hi) + Hit(ok, t, lo, hi)
  {
    assert (times + [t])[..|times|] == times && (verdicts + [ok])[..|times|] == verdicts;
  }

  /** After `times` the client's window is w, and [lo, hi] holds `total` approvals. */
  ghost predicate Standing(burst: int, window: int, times: seq<Time>, lo: Time, hi: Time, w: Window, total: nat) {
    var r := Track(burst, window, times);
    r.w == Some(w) && Approvals(times, r.verdicts, lo, hi) == total
  }

  /** One more attempt in an open window that has room for it. */
  lemma OneMore(burst: int, window: int, times: seq<Time>, lo: Time, hi: Time, w: Window, total: nat, t: Time)
    requires Standing(burst, window, times, lo, hi, w, total)
    requires lo <= t <= hi && t <= w.until && w.count + 1 <= burst
    ensures Standing(burst, window, times + [t], lo, hi, Window(w.count + 1, w.until), total + 1)
  {
    TrackStep(burst, window, times, t);
    ApprovalsStep(times, Track(burst, window, times).verdicts, t, true, lo, hi);
  }

  lemma Repeated(times: seq<Time>, t: Time, n: nat)
    ensures times + Repeat(t, n) == if n == 0 then times else times + Repeat(t, n - 1) + [t]
  {}

  /** n more attempts at one instant of such a window. */
  lemma {:induction false} Burst(burst: int, window: int, times: seq<Time>, lo: Time, hi: Time, w: Window, total: nat,
                                 t: Time, n: nat, all: seq<Time>)
    requires Standing(burst, window, times, lo, hi, w, total)
    requires lo <= t <= hi && t <= w.until && (n == 0 || w.count + n <= burst)
    requires all == times + Repeat(t, n)
    ensures Standing(burst, window, all, lo, hi, Window(w.count + n, w.until), total + n)
    decreases n
  {
    Repeated(times, t, n);
    if n == 0 {
      assert all == times;
    } else {
      var fewer := times + Repeat(t, n - 1);
      Burst(burst, window, times, lo, hi, w, total, t, n - 1, fewer);
      OneMore(burst, window, fewer, lo, hi, Window(w.count + (n - 1), w.until), total + (n - 1), t);
      assert all == fewer + [t];
    }
  }

  /** One attempt at 0, the rest of its quota as the window closes, and a full quota just
      after: 2 * quota - 1 approvals within [window, 2 * window]. */
  function Straddle(quota: nat, window: nat): seq<Time>
    requires quota >= 1
  {
    [0] + Repeat(window, quota - 1) + [window + 1] + Repeat(window + 1, quota - 1)
  }

  lemma OpeningAttempt(burst: int, window: nat, hi: Time)
    requires window >= 1
    ensures Standing(burst, window, [0], window, hi, Window(1, window), 0)
  {
    TrackStep(burst, window, [], 0);
    assert [] + [0] == [0];
    ApprovalsStep([], [], 0, true, window, hi);
    assert [] + [true] == [true];
  }

  /** Reopening as soon as the window has passed. */
  lemma Reopen(burst: int, window: nat, times: seq<Time>, hi: Time, w: Window, total: nat)
    requires Standing(burst, window, times, window, hi, w, total)
    requires w.until == window < hi
    ensures Standing(burst, window, times + [window + 1], window, hi, Window(1, window + 1 + window), total + 1)
  {
    TrackStep(burst, window, times, window + 1);
    ApprovalsStep(times, Track(burst, window, times).verdicts, window + 1, true, window, hi);
  }

  lemma StraddleOrdered(quota: nat, window: nat)
    requires quota >= 1
    ensures Ordered(Straddle(quota, window))
  {}

  lemma FirstBurst(burst: int, window: nat, hi: Time)
    requires 1 <= window < hi
    ensures Standing(burst, window, [0] + Repeat(window, Quota(burst) - 1), window, hi,
                     Window(Quota(burst), window), Quota(burst) - 1)
  {
    OpeningAttempt(burst, window, hi);
    Burst(burst, window, [0], window, hi, Window(1, window), 0, window, Quota(burst) - 1,
          [0] + Repeat(window, Quota(burst) - 1));
  }

  lemma StraddleMeets(burst: int, window: nat)
    requires window >= 1
    ensures var times := Straddle(Quota(burst), window);
      Approvals(times, Track(burst, window, times).verdicts, window, window + window) == 2 * Quota(burst) - 1
  {
    var q := Quota(burst);
    FirstBurst(burst, window, window + window);
    BothBursts(burst, window, [0] + Repeat(window, q - 1), Straddle(q, window));
  }

  lemma BothBursts(burst: int, window: nat, first: seq<Time>, all: seq<Time>)
    requires window >= 1 && all == first + [window + 1] + Repeat(window + 1, Quota(burst) - 1)
    requires Standing(burst, window, first, window, window + window, Window(Quota(burst), window), Quota(burst) - 1)
    ensures Approvals(all, Track(burst, window, all).verdicts, window, window + window) == 2 * Quota(burst) - 1
  {
    Reopen(burst, window, first, window + window, Window(Quota(burst), window), Quota(burst) - 1);
    SecondBurst(burst, window, first + [window + 1], window + window, all);
  }

  lemma SecondBurst(burst: int, window: nat, times: seq<Time>, hi: Time, all: seq<Time>)
    requires window + 1 <= hi && all == times + Repeat(window + 1, Quota(burst) - 1)
    requires Standing(burst, window, times, window, hi, Window(1, window + 1 + window), Quota(burst))
    ensures Approvals(all, Track(burst, window, all).verdicts, window, hi) == 2 * Quota(burst) - 1
  {
    var q := Quota(burst);
    Burst(burst, window, times, window, hi, Window(1, window + 1 + window), q, window + 1, q - 1, all);
  }

  lemma InstantMeets(burst: int)
    ensures var times := [0] + Repeat(0, Quota(burst) - 1);
      Approvals(times, Track(burst, 0, times).verdicts, 0, 0) == Quota(burst) && Ordered(times)
  {
    TrackStep(burst, 0, [], 0);
    assert [] + [0] == [0] && [] + [true] == [true];
    ApprovalsStep([], [], 0, true, 0, 0);
    Burst(burst, 0, [0], 0, 0, Window(1, 0), 1, 0, Quota(burst) - 1, [0] + Repeat(0, Quota(burst) - 1));
  }

  /** One client's calls at the given instants. */
  function Alone(times: seq<Time>, client: string): (calls: seq<Call>)
    ensures |calls| == |times| && forall i :: 0 <= i < |times| ==> calls[i] == Call(client, times[i])
  {
    seq(|times|, i requires 0 <= i < |times| => Call(client, times[i]))
  }

  lemma {:induction false} AloneTimes(times: seq<Time>, client: string)
    ensures Times(Alone(times, client), client) == times
  {
    if |times| > 0 {
      var m := |times| - 1;
      AloneTimes(times[..m], client);
      assert Alone(times, client)[..m] == Alone(times[..m], client);
      assert times[..m] + [times[m]] == times;
    }
  }

  /** Instants in clock order at which a client alone reaches the bound. */
  lemma Witnesses(burst: int, window: int) returns (times: seq<Time>, lo: Time)
    ensures Ordered(times)
    ensures Approvals(times, Track(burst, window, times).verdicts, lo, lo + window) == Most(burst, window)
  {
    if window < 0 {
      times, lo := [], 0;
    } else if window == 0 {
      times, lo := [0] + Repeat(0, Quota(burst) - 1), 0;
      InstantMeets(burst);
    } else {
      times, lo := Straddle(Quota(burst), window), window;
      StraddleOrdered(Quota(burst), window);
      StraddleMeets(burst, window);
    }
  }

  /** The bound cannot be lowered, for any burst and window: some run in clock order reaches
      it. */
  lemma BoundIsMet(burst: int, window: int, client: string) returns (calls: seq<Call>, lo: Time)
    ensures Clocked(calls)
    ensures var times := Times(calls, client);
      var verdicts := Verdicts(calls, Play(burst, window, calls).verdicts, client);
      |times| == |verdicts| && Approvals(times, verdicts, lo, lo + window) == Most(burst, window)
  {
    var times;
    times, lo := Witnesses(burst, window);
    calls := Alone(times, client);
    AloneTimes(times, client);
    TableFollowsClient(burst, window, calls, client);
  }

  /** The table is kept small: after a call it holds, besides the caller's, only windows that
      are still open. */
  lemma HoldsOpenWindows(burst: int, window: int, calls: seq<Call>, client: string)
    requires |calls| > 0 && client in Play(burst, window, calls).seen
    ensures var last := calls[|calls| - 1];
      client == last.client || last.now <= Play(burst, window, calls).seen[client].until
  {}

  // ---- Nobody is locked out for longer than a window ---------------------------------------------

  lemma {:induction false} Widen(times: seq<Time>, verdicts: seq<bool>, lo: Time, hi: Time, lo': Time, hi': Time)
    requires |times| == |verdicts| && lo' <= lo && hi <= hi'
    ensures Approvals(times, verdicts, lo, hi) <= Approvals(times, verdicts, lo', hi')
  {
    if |times| > 0 {
      Widen(times[..|times| - 1], verdicts[..|times| - 1], lo, hi, lo', hi');
    }
  }

  lemma SpentStep(burst: int, window: int, was: Window, last: Time, now: Time, total: int)
    requires window >= 0 && was.count >= 1 && was.until - window <= last <= was.until && last <= now
    requires total >= Spent(was.count, burst)
    ensures var step := Admit(burst, window, Some(was), now);
      && step.0.count >= 1
      && step.0.until - window <= now <= step.0.until
      && (if now > was.until then step.1 && step.0 == Window(1, now + window)
          else step.0.until == was.until
               && total + Hit(step.1, now, was.until - window, now) >= Spent(step.0.count, burst))
  {}

  /** The open window has let through at least what its count says, up to the quota. */
  lemma {:induction false} SpentSinceOpening(burst: int, window: int, times: seq<Time>)
    requires window >= 0 && Ordered(times) && |times| > 0
    ensures var r, last := Track(burst, window, times), times[|times| - 1];
      && r.w.value.count >= 1
      && r.w.value.until - window <= last <= r.w.value.until
      && Approvals(times, r.verdicts, r.w.value.until - window, last) >= Spent(r.w.value.count, burst)
  {
    var m := |times| - 1;
    var before := Track(burst, window, times[..m]);
    var w := Track(burst, window, times).w.value;
    ApprovalsLast(burst, window, times, w.until - window, times[m]);
    if m > 0 {
      SpentSinceOpening(burst, window, times[..m]);
      var was := before.w.value;
      Widen(times[..m], before.verdicts, was.until - window, times[m - 1], was.until - window, times[m]);
      SpentStep(burst, window, was, times[m - 1], times[m],
                Approvals(times[..m], before.verdicts, was.until - window, times[m]));
    }
  }

  /** A refusal at `now` means the client's whole quota was granted within the window's
      length before it; so the first attempt after a quiet window is always approved. */
  lemma RefusedOnlyWhenSpent(burst: int, window: int, times: seq<Time>, now: Time)
    requires window >= 0 && Ordered(times + [now])
    requires !Track(burst, window, times + [now]).verdicts[|times|]
    ensures Approvals(times, Track(burst, window, times).verdicts, now - window, now) >= Quota(burst)
  {
    TrackStep(burst, window, times, now);
    var r := Track(burst, window, times);
    assert forall i, j :: 0 <= i < j < |times| ==> (times + [now])[i] <= (times + [now])[j];
    SpentSinceOpening(burst, window, times);
    var last := times[|times| - 1];
    assert (times + [now])[|times| - 1] <= (times + [now])[|times|];
    Widen(times, r.verdicts, r.w.value.until - window, last, now - window, now);
  }

  /** Once a client's window has passed, its next attempt is approved and opens a new one,
      whatever the others did meanwhile. */
  lemma ApprovedAfterWindow(burst: int, window: int, calls: seq<Call>, client: string, now: Time)
    requires Clocked(calls + [Call(client, now)])
    requires var w := Track(burst, window, Times(calls, client)).w; w.Some? ==> now > w.value.until
    ensures var run := Play(burst, window, calls + [Call(client, now)]);
      run.verdicts[|calls|] && Get(run.seen, client) == Some(Window(1, now + window))
  {
    Prefix(calls, Call(client, now));
    TableFollowsClient(burst, window, calls, client);
    var own := Track(burst, window, Times(calls, client));
    ConsistentStep(burst, window, Play(burst, window, calls).seen, client, own.w, Last(calls, now), client, now);
    PlayStep(burst, window, calls, Call(client, now));
  }

  lemma Prefix(calls: seq<Call>, c: Call)
    requires Clocked(calls + [c])
    ensures Clocked(calls) && Last(calls, c.now) <= c.now
  {
    var all := calls + [c];
    forall i, j | 0 <= i < j < |calls| ensures calls[i].now <= calls[j].now {
      assert all[i].now <= all[j].now;
    }
    if |calls| > 0 { assert all[|calls| - 1].now <= all[|calls|].now; }
  }

  lemma PlayStep(burst: int, window: int, calls: seq<Call>, c: Call)
    ensures var before := Play(burst, window, calls);
      var step := Allowed(burst, window, before.seen, c.client, c.now);
      Play(burst, window, calls + [c]) == Run(step.0, before.verdicts + [step.1])
  {
    assert (calls + [c])[..|calls|] == calls;
  }
}
