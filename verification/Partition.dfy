/** Counting a set class by class. */
module Partition {
  ghost function Class<A, K>(all: set<A>, classify: A -> K, k: K): set<A> {
    set a | a in all && classify(a) == k
  }

  ghost function Classified<A, K>(all: set<A>, classify: A -> K, ks: seq<K>): set<A> {
    set a | a in all && classify(a) in ks
  }

  ghost function SumSizes<A, K>(all: set<A>, classify: A -> K, ks: seq<K>): nat {
    if |ks| == 0 then 0
    else SumSizes(all, classify, ks[..|ks| - 1]) + |Class(all, classify, ks[|ks| - 1])|
  }

  ghost predicate Distinct<K>(ks: seq<K>) {
    forall i, j :: 0 <= i < j < |ks| ==> ks[i] != ks[j]
  }

  /** The sizes of distinct classes add up to the number of members they cover. */
  lemma {:induction false} SizesAddUp<A, K>(all: set<A>, classify: A -> K, ks: seq<K>)
    requires Distinct(ks)
    ensures SumSizes(all, classify, ks) == |Classified(all, classify, ks)|
  {
    if |ks| == 0 {
      assert Classified(all, classify, ks) == {};
    } else {
      var m := |ks| - 1;
      var front, last := Classified(all, classify, ks[..m]), Class(all, classify, ks[m]);
      SizesAddUp(all, classify, ks[..m]);
      assert ks == ks[..m] + [ks[m]];
      assert Classified(all, classify, ks) == front + last;
      assert front !! last;
    }
  }

  /** Growing a set by one member grows exactly that member's class. */
  lemma ClassInsert<A, K>(all: set<A>, classify: A -> K, a: A, k: K)
    requires a !in all
    ensures Class(all + {a}, classify, k) ==
            if classify(a) == k then Class(all, classify, k) + {a} else Class(all, classify, k)
    ensures |Class(all + {a}, classify, k)| == |Class(all, classify, k)| + if classify(a) == k then 1 else 0
  {
    var grown := Class(all + {a}, classify, k);
    if classify(a) == k {
      assert grown == Class(all, classify, k) + {a};
    } else {
      assert grown == Class(all, classify, k);
    }
  }
}
