/** The record types of store/store.go. */
module Records {
  import opened Names

  /** An instant, in nanoseconds since Go's zero time, so `IsZero` is equality with
      0 and `Before`/`After` are the integer order. */
  type Time = int

  /** 1970-01-01T00:00:00Z. */
  const UNIX_EPOCH: Time := 62_135_596_800_000_000_000

  /** `Other(n)` is any name outside the nine constants. */
  datatype State =
    | Created | Pending | Active
    | Failed | Cancelled | Completed | Discarded | Abandoned | Interrupted
    | Other(name: string)

  function Rank(s: State): nat {
    match s
    case Created => 0
    case Pending => 1
    case Active => 2
    case _ => 3
  }

  predicate Terminal(s: State) {
    Rank(s) == 3
  }

  const FAILURE_STATES: set<State> := {Failed, Cancelled, Discarded, Abandoned, Interrupted}

  /** The four progress fields, which are always replaced together. */
  datatype Progress = Progress(completed: int, total: int, stage: string, at: Time)

  datatype Job = Job(
    key: string, id: string, epoch: string, queue: string,
    name: string, state: State, err: string, pattern: string,
    rootId: string, parent: string,
    attributes: map<string, string>,
    enqueuedAt: Time, startedAt: Time, finishedAt: Time,
    waitUs: int, execUs: int, attempt: int,
    progress: Progress)

  datatype Attempt = Attempt(
    jobId: string, epoch: string, queue: string,
    attempt: int, state: State, err: string,
    startedAt: Time, finishedAt: Time)

  function KeyFor(epoch: string, queue: string, id: string): string {
    epoch + ":" + queue + ":" + id
  }

  function JobKey(j: Job): string {
    KeyFor(j.epoch, j.queue, j.id)
  }

  function AttemptKey(a: Attempt): string {
    KeyFor(a.epoch, a.queue, a.jobId)
  }

  /** The store fills in the two fields it owns before anything else. */
  function Prepare(j: Job): Job {
    j.(key := JobKey(j), pattern := NormalizeName(j.name))
  }

  /** Finish time, falling back to the enqueue time of a job that never ran. */
  function LastActive(j: Job): Time {
    if j.finishedAt > j.enqueuedAt then j.finishedAt else j.enqueuedAt
  }

  // ---- Row identity ---------------------------------------------------------

  /** The text before the first colon and the text after it determine one another. */
  lemma FirstColon(a: string, r: string, b: string, s: string)
    requires ':' !in a && ':' !in b
    requires a + ":" + r == b + ":" + s
    ensures a == b && r == s
  {
    var left, right := a + ":" + r, b + ":" + s;
    assert left[|a|] == ':' && right[|b|] == ':';
    assert |a| == |b|;
    assert left[..|a|] == a && right[..|b|] == b;
    assert left[|a| + 1..] == r && right[|b| + 1..] == s;
  }

  /** The mirror image: splitting at the last colon. */
  lemma LastColon(a: string, r: string, b: string, s: string)
    requires ':' !in r && ':' !in s
    requires a + ":" + r == b + ":" + s
    ensures a == b && r == s
  {
    var left, right := a + ":" + r, b + ":" + s;
    assert left[|a|] == ':' && right[|b|] == ':';
    assert |a| == |b|;
    assert left[..|a|] == a && right[..|b|] == b;
    assert left[|a| + 1..] == r && right[|b| + 1..] == s;
  }

  lemma KeyShape(epoch: string, queue: string, id: string)
    ensures KeyFor(epoch, queue, id) == epoch + ":" + (queue + ":" + id)
    ensures KeyFor(epoch, queue, id) == (epoch + ":" + queue) + ":" + id
  {}

  /** A key determines the epoch when epochs hold no colon. */
  lemma KeyDeterminesEpoch(e: string, q: string, i: string, e': string, q': string, i': string)
    requires ':' !in e && ':' !in e'
    requires KeyFor(e, q, i) == KeyFor(e', q', i')
    ensures e == e' && q + ":" + i == q' + ":" + i'
  {
    KeyShape(e, q, i);
    KeyShape(e', q', i');
    FirstColon(e, q + ":" + i, e', q' + ":" + i');
  }

  /** Keys tell submissions apart when epochs hold no colon and either queues or IDs
      hold none: epochs are minted as "<nanos>-<pid>" and cq's IDs are counters. */
  lemma KeyInjective(e: string, q: string, i: string, e': string, q': string, i': string)
    requires ':' !in e && ':' !in e'
    requires (':' !in q && ':' !in q') || (':' !in i && ':' !in i')
    requires KeyFor(e, q, i) == KeyFor(e', q', i')
    ensures e == e' && q == q' && i == i'
  {
    KeyDeterminesEpoch(e, q, i, e', q', i');
    if ':' !in q && ':' !in q' {
      FirstColon(q, i, q', i');
    } else {
      LastColon(q, i, q', i');
    }
  }

  ghost predicate SameKeyElsewhere(e: string, q: string, i: string) {
    exists e', q', i' :: (e', q', i') != (e, q, i) && KeyFor(e', q', i') == KeyFor(e, q, i)
  }

  ghost function Colons(s: string): nat {
    if |s| == 0 then 0 else Colons(s[..|s| - 1]) + if s[|s| - 1] == ':' then 1 else 0
  }

  lemma {:induction false} ColonsConcat(a: string, b: string)
    ensures Colons(a + b) == Colons(a) + Colons(b)
    decreases |b|
  {
    if |b| == 0 {
      assert a + b == a;
    } else {
      assert (a + b)[..|a + b| - 1] == a + b[..|b| - 1];
      ColonsConcat(a, b[..|b| - 1]);
    }
  }

  lemma {:induction false} ColonsZero(s: string)
    ensures Colons(s) == 0 <==> ':' !in s
  {
    if |s| > 0 {
      ColonsZero(s[..|s| - 1]);
      assert s == s[..|s| - 1] + [s[|s| - 1]];
    }
  }

  lemma KeyColons(e: string, q: string, i: string)
    ensures Colons(KeyFor(e, q, i)) == Colons(e) + Colons(q) + Colons(i) + 2
  {
    ColonsConcat(e, ":");
    ColonsConcat(e + ":", q);
    ColonsConcat(e + ":" + q, ":");
    ColonsConcat(e + ":" + q + ":", i);
    assert ":"[..0] == "";
  }

  lemma AtColon(s: string) returns (n: nat)
    requires ':' in s
    ensures n < |s| && s == s[..n] + ":" + s[n + 1..]
  {
    n :| n < |s| && s[n] == ':';
  }

  lemma EpochColonShared(e: string, q: string, i: string)
    requires ':' in e
    ensures SameKeyElsewhere(e, q, i)
  {
    var n := AtColon(e);
    var e', q' := e[..n], e[n + 1..] + ":" + q;
    assert KeyFor(e', q', i) == KeyFor(e, q, i);
    assert |e'| < |e|;
  }

  lemma QueueColonShared(e: string, q: string, i: string)
    requires ':' in q
    ensures SameKeyElsewhere(e, q, i)
  {
    var n := AtColon(q);
    var q', i' := q[..n], q[n + 1..] + ":" + i;
    assert KeyFor(e, q', i') == KeyFor(e, q, i);
    assert |q'| < |q|;
  }

  lemma IdColonShared(e: string, q: string, i: string)
    requires ':' in i
    ensures SameKeyElsewhere(e, q, i)
  {
    var n := AtColon(i);
    var q', i' := q + ":" + i[..n], i[n + 1..];
    assert KeyFor(e, q', i') == KeyFor(e, q, i);
    assert |i'| < |i|;
  }

  lemma ColonFreeKeyAlone(e: string, q: string, i: string, e': string, q': string, i': string)
    requires ':' !in e && ':' !in q && ':' !in i
    requires KeyFor(e', q', i') == KeyFor(e, q, i)
    ensures (e', q', i') == (e, q, i)
  {
    KeyColons(e, q, i);
    KeyColons(e', q', i');
    ColonsZero(e); ColonsZero(q); ColonsZero(i);
    ColonsZero(e'); ColonsZero(q'); ColonsZero(i');
    KeyInjective(e', q', i', e, q, i);
  }

  /** Exactly which keys are shared: those of a submission with a colon in its epoch,
      queue or ID. */
  lemma KeyAmbiguousIff(e: string, q: string, i: string)
    ensures SameKeyElsewhere(e, q, i) <==> (':' in e || ':' in q || ':' in i)
  {
    if ':' in e {
      EpochColonShared(e, q, i);
    } else if ':' in q {
      QueueColonShared(e, q, i);
    } else if ':' in i {
      IdColonShared(e, q, i);
    } else if SameKeyElsewhere(e, q, i) {
      var e', q', i' :| (e', q', i') != (e, q, i) && KeyFor(e', q', i') == KeyFor(e, q, i);
      ColonFreeKeyAlone(e, q, i, e', q', i');
    }
  }
}
