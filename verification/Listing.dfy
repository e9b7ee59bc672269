/** Newest-first listings (store/memory/memory.go, Jobs). */
module Listing {
  import opened Bands
  import opened Records

  /** Go's `<` on strings. */
  predicate LexLess(a: string, b: string) {
    if |b| == 0 then false
    else if |a| == 0 then true
    else if a[0] != b[0] then a[0] < b[0]
    else LexLess(a[1..], b[1..])
  }

  lemma {:induction false} LexTotal(a: string, b: string)
    ensures !(LexLess(a, b) && LexLess(b, a))
    ensures LexLess(a, b) || LexLess(b, a) <==> a != b
    decreases |a|
  {
    if |a| > 0 && |b| > 0 && a[0] == b[0] {
      LexTotal(a[1..], b[1..]);
      assert a == [a[0]] + a[1..] && b == [b[0]] + b[1..];
    }
  }

  lemma {:induction false} LexTransitive(a: string, b: string, c: string)
    requires LexLess(a, b) && LexLess(b, c)
    ensures LexLess(a, c)
    decreases |a|
  {
    if |a| > 0 && a[0] == b[0] && b[0] == c[0] {
      LexTransitive(a[1..], b[1..], c[1..]);
    }
  }

  /** `a` comes before `b` in byte order: at the first difference it has the smaller
      character, or it ends there. */
  ghost predicate PrecedesAt(a: string, b: string, n: nat) {
    n <= |a| && n < |b| && a[..n] == b[..n] && (n == |a| || a[n] < b[n])
  }

  ghost predicate PrecedesKey(a: string, b: string) {
    exists n: nat :: PrecedesAt(a, b, n)
  }

  lemma {:induction false} LexIff(a: string, b: string)
    ensures LexLess(a, b) <==> PrecedesKey(a, b)
    decreases |a|
  {
    if |a| == 0 || |b| == 0 || a[0] != b[0] {
      assert |b| > 0 && (|a| == 0 || a[0] < b[0]) ==> PrecedesAt(a, b, 0);
      if n: nat :| PrecedesAt(a, b, n) {
        SharedStart(a, b, n);
      }
    } else {
      LexIff(a[1..], b[1..]);
      forall n: nat ensures PrecedesAt(a[1..], b[1..], n) <==> PrecedesAt(a, b, n + 1) {
        NextCharacter(a, b, n);
      }
      forall n: nat | PrecedesAt(a, b, n) ensures n > 0 && PrecedesAt(a[1..], b[1..], n - 1) {
        NextCharacter(a, b, n - 1);
      }
    }
  }

  lemma SharedStart(a: string, b: string, n: nat)
    requires PrecedesAt(a, b, n)
    ensures n > 0 ==> |a| > 0 && a[0] == b[0]
  {
    if n > 0 {
      assert a[..n][0] == a[0] && b[..n][0] == b[0];
    }
  }

  lemma NextCharacter(a: string, b: string, n: nat)
    requires |a| > 0 && |b| > 0 && a[0] == b[0]
    ensures PrecedesAt(a[1..], b[1..], n) <==> PrecedesAt(a, b, n + 1)
  {
    if n + 1 <= |a| && n + 1 <= |b| {
      assert a[..n + 1] == [a[0]] + a[1..][..n] && b[..n + 1] == [b[0]] + b[1..][..n];
      if a[..n + 1] == b[..n + 1] {
        assert a[1..][..n] == a[..n + 1][1..] && b[1..][..n] == b[..n + 1][1..];
      }
    }
  }

  /** The listing order: enqueue time, then key, both descending. */
  predicate Newer(a: Job, b: Job) {
    if a.enqueuedAt == b.enqueuedAt then LexLess(b.key, a.key) else a.enqueuedAt > b.enqueuedAt
  }

  lemma NewerTotal(a: Job, b: Job)
    ensures !(Newer(a, b) && Newer(b, a))
    ensures a.key != b.key ==> Newer(a, b) || Newer(b, a)
  {
    LexTotal(a.key, b.key);
  }

  lemma NewerTransitive(a: Job, b: Job, c: Job)
    requires Newer(a, b) && Newer(b, c)
    ensures Newer(a, c)
  {
    if a.enqueuedAt == b.enqueuedAt == c.enqueuedAt {
      LexTransitive(c.key, b.key, a.key);
    }
  }

  ghost predicate DistinctKeys(rows: set<Job>) {
    forall a, b :: a in rows && b in rows && a.key == b.key ==> a == b
  }

  ghost predicate IsNewest(rows: set<Job>, j: Job) {
    j in rows && forall x :: x in rows && x != j ==> Newer(j, x)
  }

  lemma {:induction false} NewestExists(rows: set<Job>)
    requires rows != {} && DistinctKeys(rows)
    ensures exists j :: IsNewest(rows, j)
    decreases rows
  {
    var x :| x in rows;
    if rows == {x} {
      assert IsNewest(rows, x);
    } else {
      NewestExists(rows - {x});
      var y :| IsNewest(rows - {x}, y);
      NewerTotal(x, y);
      if Newer(x, y) {
        forall z | z in rows && z != x ensures Newer(x, z) {
          if z != y { NewerTransitive(x, y, z); }
        }
        assert IsNewest(rows, x);
      } else {
        assert IsNewest(rows, y);
      }
    }
  }

  /** The listing of a set of rows: it depends on the rows alone, not on the order in
      which a map yields them. */
  ghost function NewestFirst(rows: set<Job>): seq<Job>
    requires DistinctKeys(rows)
    decreases rows
  {
    if rows == {} then []
    else
      NewestExists(rows);
      var j :| IsNewest(rows, j);
      [j] + NewestFirst(rows - {j})
  }

  ghost predicate Sorted(list: seq<Job>) {
    forall i, j :: 0 <= i < j < |list| ==> Newer(list[i], list[j])
  }

  ghost predicate Enumerates(list: seq<Job>, rows: set<Job>) {
    multiset(list) == multiset(rows)
  }

  lemma EnumeratesMembers(list: seq<Job>, rows: set<Job>)
    requires Enumerates(list, rows)
    ensures |list| == |rows|
    ensures forall x :: x in list <==> x in rows
  {
    assert |multiset(list)| == |multiset(rows)|;
    assert forall x :: x in list <==> x in multiset(list);
    assert forall x :: x in rows <==> x in multiset(rows);
  }

  lemma HeadIsNewest(list: seq<Job>, rows: set<Job>, j: Job)
    requires Enumerates(list, rows) && Sorted(list) && IsNewest(rows, j)
    ensures |list| > 0 && list[0] == j
  {
    EnumeratesMembers(list, rows);
    assert j in list;
    assert list[0] in rows;
    NewerTotal(list[0], j);
  }

  lemma TailEnumerates(list: seq<Job>, rows: set<Job>)
    requires |list| > 0 && Enumerates(list, rows)
    ensures list[0] in rows && Enumerates(list[1..], rows - {list[0]})
  {
    EnumeratesMembers(list, rows);
    assert list == [list[0]] + list[1..];
    assert multiset(list) == multiset{list[0]} + multiset(list[1..]);
    assert multiset(rows) == multiset{list[0]} + multiset(rows - {list[0]});
    assert multiset(list[1..]) == multiset(list) - multiset{list[0]};
    assert multiset(rows - {list[0]}) == multiset(rows) - multiset{list[0]};
  }

  /** Newest-first, each row exactly once: the listing is the only such sequence. */
  lemma {:induction false} ListingUnique(list: seq<Job>, rows: set<Job>)
    requires DistinctKeys(rows) && Enumerates(list, rows) && Sorted(list)
    ensures list == NewestFirst(rows)
    decreases rows
  {
    if rows == {} {
      EnumeratesMembers(list, rows);
    } else {
      NewestExists(rows);
      var j := NewestFirst(rows)[0];
      HeadIsNewest(list, rows, j);
      TailEnumerates(list, rows);
      ListingUnique(list[1..], rows - {j});
      assert list == [j] + list[1..];
    }
  }

  lemma SortedCons(j: Job, rest: seq<Job>)
    requires Sorted(rest) && forall x :: x in rest ==> Newer(j, x)
    ensures Sorted([j] + rest)
  {
    var list := [j] + rest;
    forall a, b | 0 <= a < b < |list| ensures Newer(list[a], list[b]) {
      assert list[b] == rest[b - 1] && rest[b - 1] in rest;
    }
  }

  lemma {:induction false} ListingIsSorted(rows: set<Job>)
    requires DistinctKeys(rows)
    ensures Enumerates(NewestFirst(rows), rows) && Sorted(NewestFirst(rows))
    decreases rows
  {
    if rows != {} {
      NewestExists(rows);
      var list := NewestFirst(rows);
      var j := list[0];
      ListingIsSorted(rows - {j});
      var rest := NewestFirst(rows - {j});
      EnumeratesMembers(rest, rows - {j});
      assert list == [j] + rest;
      assert multiset(rows) == multiset{j} + multiset(rows - {j});
      SortedCons(j, rest);
    }
  }

  /** Later enqueue times come first; rows enqueued at one instant go by key, the greatest
      first. */
  ghost predicate Descending(list: seq<Job>) {
    forall i, j :: 0 <= i < j < |list| ==>
      && list[i].enqueuedAt >= list[j].enqueuedAt
      && (list[i].enqueuedAt == list[j].enqueuedAt ==> PrecedesKey(list[j].key, list[i].key))
  }

  lemma SortedIff(list: seq<Job>)
    ensures Sorted(list) <==> Descending(list)
  {
    forall i, j | 0 <= i < j < |list|
      ensures Newer(list[i], list[j]) <==>
        && list[i].enqueuedAt >= list[j].enqueuedAt
        && (list[i].enqueuedAt == list[j].enqueuedAt ==> PrecedesKey(list[j].key, list[i].key))
    {
      LexIff(list[j].key, list[i].key);
    }
  }

  /** Exactly one sequence is the listing: the one that holds each row once and descends by
      enqueue time and then by key. */
  lemma ListingIff(list: seq<Job>, rows: set<Job>)
    requires DistinctKeys(rows)
    ensures list == NewestFirst(rows) <==> Enumerates(list, rows) && Descending(list)
  {
    SortedIff(list);
    ListingIsSorted(rows);
    if Enumerates(list, rows) && Sorted(list) {
      ListingUnique(list, rows);
    }
  }

  /** `sort.Slice` with the listing order, as an insertion sort. */
  method SortNewestFirst(found: seq<Job>, ghost rows: set<Job>) returns (list: seq<Job>)
    requires DistinctKeys(rows) && Enumerates(found, rows)
    ensures list == NewestFirst(rows)
  {
    list := [];
    EnumeratesMembers(found, rows);
    for i := 0 to |found|
      invariant multiset(list) == multiset(found[..i])
      invariant Sorted(list)
    {
      assert found[..i + 1] == found[..i] + [found[i]];
      assert found == found[..i] + [found[i]] + found[i + 1..];
      assert multiset(found)[found[i]] >= multiset(found[..i])[found[i]] + 1;
      assert found[i] in found;
      assert multiset(rows)[found[i]] == 1;
      assert found[i] !in multiset(list);
      forall x | x in list ensures x.key != found[i].key {
        assert x in multiset(list) && x in found[..i] && x in found;
      }
      list := Insert(list, found[i]);
    }
    assert found[..|found|] == found;
    ListingUnique(list, rows);
  }

  lemma SortedAround(list: seq<Job>, p: nat, x: Job)
    requires Sorted(list) && p <= |list|
    requires forall q :: 0 <= q < p ==> Newer(list[q], x)
    requires forall q :: p <= q < |list| ==> Newer(x, list[q])
    ensures Sorted(list[..p] + [x] + list[p..])
  {
    var out := list[..p] + [x] + list[p..];
    forall i, k | 0 <= i < k < |out| ensures Newer(out[i], out[k]) {
      if i < p && k > p { assert out[i] == list[i] && out[k] == list[k - 1]; }
    }
  }

  lemma AddedOnce(list: seq<Job>, p: nat, x: Job)
    requires p <= |list|
    ensures multiset(list[..p] + [x] + list[p..]) == multiset(list) + multiset{x}
  {
    assert list == list[..p] + list[p..];
  }

  method Insert(list: seq<Job>, x: Job) returns (out: seq<Job>)
    requires Sorted(list)
    requires forall y :: y in list ==> y.key != x.key
    ensures Sorted(out)
    ensures multiset(out) == multiset(list) + multiset{x}
  {
    var p := 0;
    while p < |list| && Newer(list[p], x)
      invariant 0 <= p <= |list|
      invariant forall q :: 0 <= q < p ==> Newer(list[q], x)
    {
      p := p + 1;
    }
    forall q | p <= q < |list| ensures Newer(x, list[q]) {
      assert list[p] in list;
      NewerTotal(x, list[p]);
      if q > p { NewerTransitive(x, list[p], list[q]); }
    }
    out := list[..p] + [x] + list[p..];
    SortedAround(list, p, x);
    AddedOnce(list, p, x);
  }

  /** One page of a listing: the limit the store accepts, then offset and length. */
  function PageOf(list: seq<Job>, offset: nat, limit: int): seq<Job> {
    var n := if limit <= 0 || limit > 500 then 100 else limit;
    if offset >= |list| then []
    else if |list| - offset > n then list[offset..offset + n] else list[offset..]
  }

  /** A page holds the rows from its offset on, as many as were asked for: up to 500, and 100
      when the limit is out of range. */
  lemma PageShows(list: seq<Job>, offset: nat, limit: int)
    ensures var page := PageOf(list, offset, limit);
      && |page| <= 500
      && (1 <= limit <= 500 ==> |page| <= limit && (|page| < limit ==> offset + |page| >= |list|))
      && (limit < 1 || limit > 500 ==> page == PageOf(list, offset, 100))
      && (offset + |page| <= |list| || page == [])
      && forall i :: 0 <= i < |page| ==> page[i] == list[offset + i]
    ensures Descending(list) ==> Descending(PageOf(list, offset, limit))
  {
    var page := PageOf(list, offset, limit);
    forall i | 0 <= i < |page| ensures page[i] == list[offset + i] {}
  }

  method TakePage(list: seq<Job>, offset: int, limit: int) returns (page: Option<seq<Job>>)
    ensures page == if offset < 0 then None else Some(PageOf(list, offset, limit))
  {
    var most := limit;
    if most <= 0 || most > 500 {
      most := 100;
    }
    if offset >= |list| {
      return Some([]);
    }
    if offset < 0 {
      return None;
    }
    var rest := list[offset..];
    if |rest| > most {
      assert rest[..most] == list[offset..offset + most];
      rest := rest[..most];
    }
    page := Some(rest);
  }
}
