/** Facts about finite sets and sequences that several components rely on. */
module Collections {

  datatype Option<+T> = None | Some(value: T)

  ghost predicate Distinct<T>(xs: seq<T>) {
    forall i, j :: 0 <= i < j < |xs| ==> xs[i] != xs[j]
  }

  function Elements<T>(xs: seq<T>): set<T> {
    set x | x in xs
  }

  lemma ElementsEmpty<T>(xs: seq<T>)
    ensures Elements(xs) == {} <==> xs == []
  {
    if xs != [] {
      assert xs[0] in Elements(xs);
    }
  }

  lemma DistinctCardinality<T>(xs: seq<T>)
    requires Distinct(xs)
    ensures |Elements(xs)| == |xs|
  {
    if xs == [] {
      assert Elements(xs) == {};
    } else {
      var init := xs[..|xs| - 1];
      var last := xs[|xs| - 1];
      DistinctCardinality(init);
      assert Elements(xs) == Elements(init) + {last};
      assert last !in Elements(init);
    }
  }

  lemma {:induction false} DistinctByCount<T>(xs: seq<T>)
    requires |Elements(xs)| == |xs|
    ensures Distinct(xs)
  {
    if xs != [] {
      var init, last := xs[..|xs| - 1], xs[|xs| - 1];
      assert xs == init + [last];
      assert Elements(xs) == Elements(init) + {last};
      ElementsAtMost(init);
      DistinctByCount(init);
      assert last !in Elements(init);
    }
  }

  lemma {:induction false} ElementsAtMost<T>(xs: seq<T>)
    ensures |Elements(xs)| <= |xs|
  {
    if xs == [] {
      assert Elements(xs) == {};
    } else {
      ElementsAtMost(xs[..|xs| - 1]);
      assert xs == xs[..|xs| - 1] + [xs[|xs| - 1]];
      assert Elements(xs) == Elements(xs[..|xs| - 1]) + {xs[|xs| - 1]};
    }
  }

  lemma {:induction false} CountsOfDistinct<T(!new)>(xs: seq<T>)
    ensures Distinct(xs) <==> forall x :: multiset(xs)[x] <= 1
  {
    if xs != [] {
      var init, last := xs[..|xs| - 1], xs[|xs| - 1];
      CountsOfDistinct(init);
      assert xs == init + [last];
      assert multiset(xs) == multiset(init) + multiset{last};
      assert last in init <==> multiset(init)[last] > 0;
      if Distinct(xs) {
        assert Distinct(init) && last !in init;
        forall x ensures multiset(xs)[x] <= 1 {
          assert multiset(init)[x] <= 1;
        }
      } else if Distinct(init) {
        assert last in init;
        assert multiset(xs)[last] > 1;
      } else {
        var x :| multiset(init)[x] > 1;
        assert multiset(xs)[x] > 1;
      }
    }
  }

  lemma DistinctAppend<T>(xs: seq<T>, ys: seq<T>)
    requires Distinct(xs) && Distinct(ys)
    requires forall y :: y in ys ==> y !in xs
    ensures Distinct(xs + ys)
  {
    forall i, j | 0 <= i < j < |xs + ys| ensures (xs + ys)[i] != (xs + ys)[j] {
      assert (xs + ys)[j] in if j < |xs| then xs else ys;
    }
  }

  lemma Regroup<T>(a: seq<T>, b: seq<T>, c: seq<T>)
    ensures (a + b) + c == a + (b + c)
  {
  }

  function Concat(parts: seq<string>): string {
    if parts == [] then "" else Concat(parts[..|parts| - 1]) + parts[|parts| - 1]
  }

  lemma SubsetCardinality<T>(a: set<T>, b: set<T>)
    requires a <= b
    ensures |a| <= |b|
    ensures |a| == |b| ==> a == b
  {
    assert b == a + (b - a);
    assert |b| == |a| + |b - a|;
  }

  /** Pigeonhole: a sequence longer than the set it draws from repeats a value. */
  lemma Pigeonhole<T>(xs: seq<T>, s: set<T>) returns (i: nat, j: nat)
    requires forall x :: x in xs ==> x in s
    requires |s| < |xs|
    ensures i < j < |xs| && xs[i] == xs[j]
  {
    if Distinct(xs) {
      DistinctCardinality(xs);
      SubsetCardinality(Elements(xs), s);
      assert false;
    }
    i, j :| 0 <= i < j < |xs| && xs[i] == xs[j];
  }
}
