/** Code-point order on strings, and the one sorted listing of a set of strings. */
module Ordering {
  import opened Collections

  predicate Below(a: string, b: string) {
    if a == [] then b != []
    else b != [] && (a[0] < b[0] || (a[0] == b[0] && Below(a[1..], b[1..])))
  }

  /** Up to k the strings are alike; there a ends, or has the smaller code point. */
  ghost predicate PartAt(a: string, b: string, k: nat) {
    k <= |a| && k < |b| && a[..k] == b[..k] && (k == |a| || a[k] < b[k])
  }

  /** Below is the order by the first place where the strings part. */
  lemma {:induction false} BelowSpelled(a: string, b: string)
    ensures Below(a, b) <==> exists k: nat :: PartAt(a, b, k)
  {
    if Below(a, b) {
      if a != [] && a[0] == b[0] {
        BelowSpelled(a[1..], b[1..]);
        var k: nat :| PartAt(a[1..], b[1..], k);
        PartLater(a, b, k);
        assert PartAt(a, b, k + 1);
      } else {
        assert PartAt(a, b, 0);
      }
    }
    if k: nat :| PartAt(a, b, k) {
      PartFirst(a, b, k);
      if k > 0 {
        PartLater(a, b, k - 1);
        BelowSpelled(a[1..], b[1..]);
      }
    }
  }

  lemma PartFirst(a: string, b: string, k: nat)
    requires PartAt(a, b, k)
    ensures b != [] && (k == 0 ==> a == [] || a[0] < b[0]) && (k > 0 ==> a != [] && a[0] == b[0])
  {
    if k > 0 {
      assert a[..k][0] == b[..k][0];
    }
  }

  lemma PartLater(a: string, b: string, k: nat)
    requires a != [] && b != [] && a[0] == b[0]
    ensures PartAt(a[1..], b[1..], k) <==> PartAt(a, b, k + 1)
  {
    if k < |a| && k + 1 < |b| {
      assert a[..k + 1] == [a[0]] + a[1..][..k] && b[..k + 1] == [b[0]] + b[1..][..k];
    }
  }

  lemma {:induction false} BelowIrreflexive(a: string)
    ensures !Below(a, a)
  {
    if a != [] {
      BelowIrreflexive(a[1..]);
    }
  }

  lemma {:induction false} BelowTransitive(a: string, b: string, c: string)
    requires Below(a, b) && Below(b, c)
    ensures Below(a, c)
  {
    if a != [] && a[0] == b[0] == c[0] {
      BelowTransitive(a[1..], b[1..], c[1..]);
    }
  }

  lemma {:induction false} BelowTotal(a: string, b: string)
    ensures a == b || Below(a, b) || Below(b, a)
  {
    if a != [] && b != [] && a[0] == b[0] {
      BelowTotal(a[1..], b[1..]);
      assert a == [a[0]] + a[1..] && b == [b[0]] + b[1..];
    }
  }

  ghost predicate Ascending(xs: seq<string>) {
    forall i, j :: 0 <= i < j < |xs| ==> Below(xs[i], xs[j])
  }

  ghost predicate IsLeast(x: string, s: set<string>) {
    x in s && forall y :: y in s && y != x ==> Below(x, y)
  }

  lemma {:induction false} LeastExists(s: set<string>)
    requires s != {}
    ensures exists x :: IsLeast(x, s)
    decreases |s|
  {
    var a :| a in s;
    if s == {a} {
      assert IsLeast(a, s);
    } else {
      LeastExists(s - {a});
      var b :| IsLeast(b, s - {a});
      BelowTotal(a, b);
      var x := if Below(a, b) then a else b;
      forall y | y in s && y != x ensures Below(x, y) {
        if x == a && y != b {
          BelowTransitive(a, b, y);
        }
      }
      assert IsLeast(x, s);
    }
  }

  /** The elements of s in ascending order. */
  ghost function SortedList(s: set<string>): (xs: seq<string>)
    ensures Ascending(xs) && Elements(xs) == s && Distinct(xs)
  {
    if s == {} then []
    else
      LeastExists(s);
      var x :| IsLeast(x, s);
      var rest := SortedList(s - {x});
      assert forall y :: y in rest ==> y in Elements(rest);
      SortedListStep(x, rest, s);
      [x] + rest
  }

  lemma SortedListStep(x: string, rest: seq<string>, s: set<string>)
    requires IsLeast(x, s) && Ascending(rest) && Elements(rest) == s - {x} && Distinct(rest)
    ensures Ascending([x] + rest) && Elements([x] + rest) == s && Distinct([x] + rest)
  {
    var xs := [x] + rest;
    forall i, j | 0 <= i < j < |xs| ensures Below(xs[i], xs[j]) && xs[i] != xs[j] {
      assert xs[j] in Elements(rest);
    }
    assert Elements(xs) == {x} + Elements(rest);
  }

  /** There is only one ascending listing of a set. */
  lemma {:induction false} AscendingUnique(xs: seq<string>, ys: seq<string>)
    requires Ascending(xs) && Ascending(ys) && Elements(xs) == Elements(ys)
    ensures xs == ys
    decreases |xs|
  {
    ElementsEmpty(xs);
    ElementsEmpty(ys);
    if xs != [] && ys != [] {
      assert xs[0] in Elements(ys) && ys[0] in Elements(xs);
      var i :| 0 <= i < |ys| && ys[i] == xs[0];
      var j :| 0 <= j < |xs| && xs[j] == ys[0];
      if i != 0 && j != 0 {
        BelowTransitive(xs[0], xs[j], ys[i]);
        BelowIrreflexive(xs[0]);
      }
      assert xs[0] == ys[0];
      TailElements(xs);
      TailElements(ys);
      AscendingUnique(xs[1..], ys[1..]);
      assert xs == [xs[0]] + xs[1..] && ys == [ys[0]] + ys[1..];
    }
  }

  lemma TailElements(xs: seq<string>)
    requires Ascending(xs) && xs != []
    ensures Elements(xs[1..]) == Elements(xs) - {xs[0]} && Ascending(xs[1..])
  {
    forall k | 1 <= k < |xs| ensures xs[k] != xs[0] {
      BelowIrreflexive(xs[0]);
    }
    forall x | x in xs && x != xs[0] ensures x in xs[1..] {
      var k :| 0 <= k < |xs| && xs[k] == x;
      assert xs[1..][k - 1] == x;
    }
  }

  // -------------------------------------------------------- sorting a listing

  ghost predicate Ordered(xs: seq<string>) {
    forall i, j :: 0 <= i < j < |xs| ==> xs[i] == xs[j] || Below(xs[i], xs[j])
  }

  function Insert(x: string, xs: seq<string>): seq<string> {
    if xs == [] then [x]
    else if Below(xs[0], x) then [xs[0]] + Insert(x, xs[1..])
    else [x] + xs
  }

  function Sort(xs: seq<string>): seq<string> {
    if xs == [] then [] else Insert(xs[0], Sort(xs[1..]))
  }

  lemma {:induction false} InsertOrdered(x: string, xs: seq<string>)
    requires Ordered(xs)
    ensures Ordered(Insert(x, xs))
    ensures multiset(Insert(x, xs)) == multiset(xs) + multiset{x}
  {
    if xs != [] {
      hide Below;
      assert xs == [xs[0]] + xs[1..];
      if Below(xs[0], x) {
        InsertOrdered(x, xs[1..]);
        StaysFirst(x, xs);
      } else {
        BelowTotal(xs[0], x);
        GoesFirst(x, xs);
      }
    }
  }

  lemma StaysFirst(x: string, xs: seq<string>)
    requires Ordered(xs) && xs != [] && Below(xs[0], x)
    requires var rest := Insert(x, xs[1..]); Ordered(rest) && multiset(rest) == multiset(xs[1..]) + multiset{x}
    ensures Ordered([xs[0]] + Insert(x, xs[1..]))
  {
    hide Below, Insert;
    var rest := Insert(x, xs[1..]);
    forall y | y in rest ensures xs[0] == y || Below(xs[0], y) {
      assert y in multiset(rest);
      assert y != x ==> y in xs[1..];
    }
  }

  lemma GoesFirst(x: string, xs: seq<string>)
    requires Ordered(xs) && xs != [] && (x == xs[0] || Below(x, xs[0]))
    ensures Ordered([x] + xs)
  {
    hide Below;
    forall y | y in xs ensures x == y || Below(x, y) {
      if x != xs[0] && y != xs[0] {
        BelowTransitive(x, xs[0], y);
      }
    }
  }

  /** Sorting yields the same strings, as often, in order. */
  lemma {:induction false} SortOrders(xs: seq<string>)
    ensures Ordered(Sort(xs))
    ensures multiset(Sort(xs)) == multiset(xs)
  {
    if xs != [] {
      SortOrders(xs[1..]);
      InsertOrdered(xs[0], Sort(xs[1..]));
      assert xs == [xs[0]] + xs[1..];
    }
  }

  /** There is only one ordered listing of a multiset. */
  lemma {:induction false} OrderedUnique(xs: seq<string>, ys: seq<string>)
    requires Ordered(xs) && Ordered(ys) && multiset(xs) == multiset(ys)
    ensures xs == ys
    decreases |xs|
  {
    if xs == [] {
      assert |multiset(ys)| == 0;
    } else {
      hide Below, Ordered;
      TakeFirst(xs);
      assert ys != [] by { assert xs[0] in multiset(ys); }
      TakeFirst(ys);
      FirstIsLeast(xs, ys[0]);
      FirstIsLeast(ys, xs[0]);
      BelowAntisymmetric(xs[0], ys[0]);
      OrderedUnique(xs[1..], ys[1..]);
    }
  }

  lemma TakeFirst(xs: seq<string>)
    requires Ordered(xs) && xs != []
    ensures Ordered(xs[1..]) && xs == [xs[0]] + xs[1..] && xs[0] in multiset(xs)
    ensures multiset(xs[1..]) == multiset(xs) - multiset{xs[0]}
  {
    hide Below;
    assert xs == [xs[0]] + xs[1..];
  }

  lemma BelowAntisymmetric(a: string, b: string)
    ensures Below(a, b) ==> !Below(b, a)
  {
    hide Below;
    if Below(a, b) && Below(b, a) {
      BelowTransitive(a, b, a);
    }
    BelowIrreflexive(a);
  }

  lemma FirstIsLeast(xs: seq<string>, y: string)
    requires Ordered(xs) && xs != []
    ensures y in multiset(xs) ==> xs[0] == y || Below(xs[0], y)
  {
    hide Below;
    if y in multiset(xs) {
      assert y in xs;
    }
  }

  /** Where a string goes in an ordered listing. */
  lemma {:induction false} PlaceFor(x: string, xs: seq<string>) returns (p: nat)
    requires Ordered(xs)
    ensures p <= |xs| && Ordered(xs[..p] + [x] + xs[p..])
  {
    p := 0;
    while p < |xs| && Below(xs[p], x)
      invariant p <= |xs| && forall i :: 0 <= i < p ==> Below(xs[i], x)
    {
      p := p + 1;
    }
    forall i | p <= i < |xs| ensures x == xs[i] || Below(x, xs[i]) {
      BelowTotal(xs[p], x);
      if x != xs[p] && xs[p] != xs[i] {
        BelowTransitive(x, xs[p], xs[i]);
      }
    }
  }

  /** Any duplicate-free listing of a set sorts to the set's sorted list. */
  lemma {:induction false} SortOfListing(xs: seq<string>, s: set<string>)
    requires Distinct(xs) && Elements(xs) == s
    ensures Sort(xs) == SortedList(s)
  {
    var ys := Sort(xs);
    SortOrders(xs);
    assert Elements(ys) == s by {
      forall x ensures x in ys <==> x in xs {
        assert x in ys <==> x in multiset(ys);
        assert x in xs <==> x in multiset(xs);
      }
    }
    DistinctCardinality(xs);
    assert |ys| == |multiset(ys)| == |xs|;
    DistinctByCount(ys);
    AscendingUnique(ys, SortedList(s));
  }

  // ------------------------------------------------------------- numeric ids

  predicate AscendingIds(ids: seq<nat>) { forall i, j :: 0 <= i < j < |ids| ==> ids[i] < ids[j] }

  predicate IsLeastId(x: nat, s: set<nat>) { x in s && forall y :: y in s ==> x <= y }

  lemma {:induction false} LeastIdExists(s: set<nat>)
    requires s != {}
    ensures exists x :: IsLeastId(x, s)
    decreases |s|
  {
    var a :| a in s;
    if s == {a} {
      assert IsLeastId(a, s);
    } else {
      LeastIdExists(s - {a});
      var b :| IsLeastId(b, s - {a});
      assert s == {a} + (s - {a});
      var x := if a < b then a else b;
      assert IsLeastId(x, s);
    }
  }

  /** The ids of s, ascending. */
  function SortedIds(s: set<nat>): (ids: seq<nat>)
    ensures Elements(ids) == s && AscendingIds(ids)
  {
    if s == {} then []
    else
      LeastIdExists(s);
      var x :| x in s && IsLeastId(x, s);
      var rest := SortedIds(s - {x});
      LeastFirst(x, rest, s);
      [x] + rest
  }

  lemma LeastFirst(x: nat, rest: seq<nat>, s: set<nat>)
    requires IsLeastId(x, s) && Elements(rest) == s - {x}
    requires AscendingIds(rest)
    ensures Elements([x] + rest) == s && AscendingIds([x] + rest)
  {
    forall j | 0 <= j < |rest| ensures x < rest[j] {
      assert rest[j] in Elements(rest);
    }
    assert Elements([x] + rest) == {x} + Elements(rest);
  }
}
