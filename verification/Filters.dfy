/** Job filters and what they match (store/store.go, store/memory/memory.go).

Text is ASCII wherever case matters: `Lower` folds the letters A-Z only. */
module Filters {
  import opened Records

  datatype Filter = Filter(
    queue: string, name: string, pattern: string, states: seq<State>,
    search: string, before: Time,
    attrKey: string, attrValue: string,
    limit: int, offset: int)

  function LowerChar(c: char): char {
    if 'A' <= c <= 'Z' then c - 'A' + 'a' else c
  }

  function Lower(s: string): (r: string)
    ensures |r| == |s|
    ensures forall i :: 0 <= i < |s| ==> r[i] == LowerChar(s[i])
  {
    seq(|s|, i requires 0 <= i < |s| => LowerChar(s[i]))
  }

  /** Space, and the control characters from tab to carriage return. */
  predicate IsSpace(c: char) {
    c == ' ' || '\t' <= c <= '\r'
  }

  /** `strings.Fields`: the maximal runs of non-space characters. */
  datatype Scan = Scan(words: seq<string>, open: string)

  function Close(scan: Scan): seq<string> {
    if scan.open == "" then scan.words else scan.words + [scan.open]
  }

  function ScanWords(s: string): Scan {
    if |s| == 0 then Scan([], "")
    else
      var c, front := s[|s| - 1], ScanWords(s[..|s| - 1]);
      if IsSpace(c) then Scan(Close(front), "") else front.(open := front.open + [c])
  }

  function Fields(s: string): seq<string> {
    Close(ScanWords(s))
  }

  predicate ContainsAt(s: string, t: string, i: nat) {
    i + |t| <= |s| && s[i..i + |t|] == t
  }

  predicate Contains(s: string, t: string) {
    exists i: nat :: i <= |s| && ContainsAt(s, t, i)
  }

  predicate MatchesTerms(j: Job, terms: seq<string>) {
    forall t :: t in terms ==> Contains(Lower(j.id), t) || Contains(Lower(j.name), t)
  }

  predicate MatchesAttribute(j: Job, f: Filter) {
    f.attrKey == "" ||
    (f.attrKey in j.attributes && (f.attrValue == "" || j.attributes[f.attrKey] == f.attrValue))
  }

  predicate Matches(f: Filter, j: Job) {
    && (f.queue == "" || j.queue == f.queue)
    && (f.name == "" || j.name == f.name)
    && (f.pattern == "" || j.pattern == f.pattern)
    && (f.states == [] || j.state in f.states)
    && (f.before == 0 || j.enqueuedAt <= f.before)
    && MatchesTerms(j, Fields(Lower(f.search)))
    && MatchesAttribute(j, f)
  }

  function MatchingKeys(jobs: map<string, Job>, f: Filter): set<string> {
    set k | k in jobs && Matches(f, jobs[k])
  }

  function Rows(jobs: map<string, Job>, keys: set<string>): set<Job> {
    set k | k in keys && k in jobs :: jobs[k]
  }

  function MatchingRows(jobs: map<string, Job>, f: Filter): set<Job> {
    Rows(jobs, MatchingKeys(jobs, f))
  }

  ghost predicate Keyed(jobs: map<string, Job>) {
    forall k :: k in jobs ==> jobs[k].key == k
  }

  lemma RowsInsert(jobs: map<string, Job>, keys: set<string>, k: string)
    requires Keyed(jobs) && k in jobs && k !in keys && keys <= jobs.Keys
    ensures Rows(jobs, keys + {k}) == Rows(jobs, keys) + {jobs[k]}
    ensures jobs[k] !in Rows(jobs, keys)
  {
    assert forall x :: x in Rows(jobs, keys) ==> x.key in keys;
  }

  /** Rows are as many as their keys. */
  lemma {:induction false} RowsCount(jobs: map<string, Job>, keys: set<string>)
    requires Keyed(jobs) && keys <= jobs.Keys
    ensures |Rows(jobs, keys)| == |keys|
    decreases keys
  {
    if keys == {} {
      assert Rows(jobs, keys) == {};
    } else {
      var k :| k in keys;
      RowsCount(jobs, keys - {k});
      RowsInsert(jobs, keys - {k}, k);
      assert keys - {k} + {k} == keys;
    }
  }
}
