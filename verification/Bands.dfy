/** Folding a stream of records with an associative, idempotent operator.

Every write the dashboard makes is an upsert: a record is stored as it is when
its key is new, and merged into what is already stored otherwise.  This module
proves, once for all record types, what such a fold promises to a stream that is
replayed, duplicated, reordered or cut into batches. */
module Bands {
  datatype Option<+T> = None | Some(value: T)

  function FoldLeft<S, T>(f: (S, T) -> S, s: S, xs: seq<T>): S {
    if |xs| == 0 then s
    else f(FoldLeft(f, s, xs[..|xs| - 1]), xs[|xs| - 1])
  }

  lemma {:induction false} FoldLeftConcat<S, T>(f: (S, T) -> S, s: S, xs: seq<T>, ys: seq<T>)
    ensures FoldLeft(f, s, xs + ys) == FoldLeft(f, FoldLeft(f, s, xs), ys)
    decreases |ys|
  {
    if |ys| == 0 {
      assert xs + ys == xs;
    } else {
      assert (xs + ys)[..|xs + ys| - 1] == xs + ys[..|ys| - 1];
      FoldLeftConcat(f, s, xs, ys[..|ys| - 1]);
    }
  }

  lemma FoldLeftSnoc<S, T>(f: (S, T) -> S, s: S, xs: seq<T>, x: T)
    ensures FoldLeft(f, s, xs + [x]) == f(FoldLeft(f, s, xs), x)
  {
    assert (xs + [x])[..|xs|] == xs;
  }

  lemma FoldLeftOne<S, T>(f: (S, T) -> S, s: S, x: T)
    ensures FoldLeft(f, s, [x]) == f(s, x)
  {
    assert [x][..0] == [];
  }

  /** Store `x` when nothing is stored yet, merge it otherwise. */
  function Absorb<T>(f: (T, T) -> T, acc: Option<T>, x: T): Option<T> {
    match acc
    case None => Some(x)
    case Some(a) => Some(f(a, x))
  }

  function Fold<T>(f: (T, T) -> T, acc: Option<T>, xs: seq<T>): Option<T> {
    if |xs| == 0 then acc
    else Absorb(f, Fold(f, acc, xs[..|xs| - 1]), xs[|xs| - 1])
  }

  ghost predicate Associative<T(!new)>(f: (T, T) -> T) {
    forall x, y, z :: f(f(x, y), z) == f(x, f(y, z))
  }

  ghost predicate Idempotent<T(!new)>(f: (T, T) -> T) {
    forall x :: f(x, x) == x
  }

  lemma {:induction false} FoldConcat<T>(f: (T, T) -> T, acc: Option<T>, xs: seq<T>, ys: seq<T>)
    ensures Fold(f, acc, xs + ys) == Fold(f, Fold(f, acc, xs), ys)
    decreases |ys|
  {
    if |ys| == 0 {
      assert xs + ys == xs;
    } else {
      assert (xs + ys)[..|xs + ys| - 1] == xs + ys[..|ys| - 1];
      FoldConcat(f, acc, xs, ys[..|ys| - 1]);
    }
  }

  /** A batch acts on the stored record as the single record it folds to. */
  lemma {:induction false} FoldCollapses<T(!new)>(f: (T, T) -> T, a: T, xs: seq<T>)
    requires Associative(f)
    requires |xs| > 0
    ensures Fold(f, None, xs).Some?
    ensures Fold(f, Some(a), xs) == Some(f(a, Fold(f, None, xs).value))
    decreases |xs|
  {
    if |xs| > 1 {
      FoldCollapses(f, a, xs[..|xs| - 1]);
    }
  }

  /** Delivering a whole batch a second time changes nothing. */
  lemma FoldReplay<T(!new)>(f: (T, T) -> T, acc: Option<T>, xs: seq<T>)
    requires Associative(f) && Idempotent(f)
    ensures Fold(f, Fold(f, acc, xs), xs) == Fold(f, acc, xs)
  {
    if |xs| > 0 {
      var b := Fold(f, None, xs);
      match acc
      case None =>
        FoldCollapses(f, xs[0], xs);
        FoldCollapses(f, b.value, xs);
      case Some(a) =>
        FoldCollapses(f, a, xs);
        FoldCollapses(f, f(a, b.value), xs);
        assert f(f(a, b.value), b.value) == f(a, f(b.value, b.value));
    }
  }

  /** `agree` marks the pairs on which `f` commutes, and merging keeps a record
      inside any family of records that agree with one another. */
  ghost predicate Compatible<T(!new)>(f: (T, T) -> T, agree: (T, T) -> bool) {
    && (forall x, y :: agree(x, y) ==> agree(y, x) && f(x, y) == f(y, x))
    && (forall x, y, z :: agree(x, y) && agree(x, z) && agree(y, z) ==> agree(f(x, y), z))
  }

  ghost predicate Coherent<T(!new)>(agree: (T, T) -> bool, xs: seq<T>) {
    forall x, y :: x in xs && y in xs ==> agree(x, y)
  }

  lemma {:induction false} FoldAgrees<T(!new)>(f: (T, T) -> T, agree: (T, T) -> bool, xs: seq<T>, y: T)
    requires Compatible(f, agree)
    requires |xs| > 0 && Coherent(agree, xs)
    requires forall x :: x in xs ==> agree(x, y)
    ensures Fold(f, None, xs).Some? && agree(Fold(f, None, xs).value, y)
    decreases |xs|
  {
    var n := |xs| - 1;
    assert xs[n] in xs;
    if n > 0 {
      FoldAgrees(f, agree, xs[..n], y);
      FoldAgrees(f, agree, xs[..n], xs[n]);
    }
  }

  /** A record the fold has already seen is absorbed without trace. */
  lemma {:induction false} FoldAbsorbs<T(!new)>(f: (T, T) -> T, agree: (T, T) -> bool, xs: seq<T>, y: T)
    requires Associative(f) && Idempotent(f) && Compatible(f, agree)
    requires Coherent(agree, xs) && y in xs
    ensures Fold(f, None, xs).Some? && f(Fold(f, None, xs).value, y) == Fold(f, None, xs).value
    decreases |xs|
  {
    var n := |xs| - 1;
    var last := xs[n];
    if n == 0 {
      assert xs[..0] == [];
      assert f(y, y) == y;
    } else {
      var a := Fold(f, None, xs[..n]);
      FoldCollapses(f, last, xs[..n]);
      if y == last {
        assert f(f(a.value, y), y) == f(a.value, f(y, y));
      } else {
        assert y in xs[..n];
        FoldAbsorbs(f, agree, xs[..n], y);
        assert agree(last, y);
        calc {
          f(f(a.value, last), y);
          f(a.value, f(last, y));
          f(a.value, f(y, last));
          f(f(a.value, y), last);
          f(a.value, last);
        }
      }
    }
  }

  lemma {:induction false} FoldAbsorbsAll<T(!new)>(f: (T, T) -> T, agree: (T, T) -> bool, xs: seq<T>, ys: seq<T>)
    requires Associative(f) && Idempotent(f) && Compatible(f, agree)
    requires Coherent(agree, xs) && forall y :: y in ys ==> y in xs
    ensures Fold(f, None, xs + ys) == Fold(f, None, xs)
    decreases |ys|
  {
    if |ys| == 0 {
      assert xs + ys == xs;
    } else {
      var n := |ys| - 1;
      FoldAbsorbsAll(f, agree, xs, ys[..n]);
      assert (xs + ys)[..|xs + ys| - 1] == xs + ys[..n];
      assert ys[n] in xs;
      FoldAbsorbs(f, agree, xs, ys[n]);
    }
  }

  lemma FoldsAgree<T(!new)>(f: (T, T) -> T, agree: (T, T) -> bool, xs: seq<T>, ys: seq<T>)
    requires Compatible(f, agree)
    requires |xs| > 0 && |ys| > 0 && Coherent(agree, xs) && Coherent(agree, ys)
    requires forall x, y :: x in xs && y in ys ==> agree(x, y)
    ensures Fold(f, None, xs).Some? && Fold(f, None, ys).Some?
    ensures agree(Fold(f, None, xs).value, Fold(f, None, ys).value)
  {
    FoldAgrees(f, agree, xs, ys[0]);
    var x := Fold(f, None, xs).value;
    forall y | y in ys ensures agree(y, x) {
      FoldAgrees(f, agree, xs, y);
    }
    FoldAgrees(f, agree, ys, x);
  }

  lemma FoldSwap<T(!new)>(f: (T, T) -> T, agree: (T, T) -> bool, xs: seq<T>, ys: seq<T>)
    requires Associative(f) && Compatible(f, agree)
    requires |xs| > 0 && |ys| > 0 && Coherent(agree, xs) && Coherent(agree, ys)
    requires forall x, y :: x in xs && y in ys ==> agree(x, y)
    ensures Fold(f, None, xs + ys) == Fold(f, None, ys + xs)
  {
    FoldsAgree(f, agree, xs, ys);
    var x, y := Fold(f, None, xs).value, Fold(f, None, ys).value;
    FoldConcat(f, None, xs, ys);
    FoldConcat(f, None, ys, xs);
    FoldCollapses(f, x, ys);
    FoldCollapses(f, y, xs);
  }

  lemma NoMembers<T>(xs: seq<T>)
    requires forall x :: x !in xs
    ensures xs == []
  {
    assert |xs| == 0 || (var x := xs[0]; x in xs);
  }

  /** Two coherent streams carrying the same records, in any order and with any
      repetitions, fold to the same stored record. */
  lemma FoldOrderTolerant<T(!new)>(f: (T, T) -> T, agree: (T, T) -> bool, xs: seq<T>, ys: seq<T>)
    requires Associative(f) && Idempotent(f) && Compatible(f, agree)
    requires Coherent(agree, xs)
    requires forall x :: x in xs <==> x in ys
    ensures Fold(f, None, xs) == Fold(f, None, ys)
  {
    if |xs| == 0 {
      NoMembers(ys);
    } else if |ys| == 0 {
      NoMembers(xs);
    } else {
      FoldAbsorbsAll(f, agree, xs, ys);
      FoldAbsorbsAll(f, agree, ys, xs);
      FoldSwap(f, agree, xs, ys);
    }
  }
}
