/** The stable sort that `sorted` performs, for an arbitrary comparison. */
module Sorting {
  import opened Collections

  /** A comparison by a totally ordered key: any two elements compare, and comparisons chain. */
  ghost predicate TotalPreorder<T(!new)>(leq: (T, T) -> bool) {
    && (forall x, y :: leq(x, y) || leq(y, x))
    && (forall x, y, z :: leq(x, y) && leq(y, z) ==> leq(x, z))
  }

  ghost predicate Sorted<T>(leq: (T, T) -> bool, xs: seq<T>) {
    forall i, j :: 0 <= i < j < |xs| ==> leq(xs[i], xs[j])
  }

  function Insert<T>(leq: (T, T) -> bool, x: T, xs: seq<T>): (ys: seq<T>)
    ensures |ys| == |xs| + 1
    ensures multiset(ys) == multiset{x} + multiset(xs)
  {
    if xs == [] || leq(x, xs[0]) then [x] + xs
    else
      assert xs == [xs[0]] + xs[1..];
      [xs[0]] + Insert(leq, x, xs[1..])
  }

  /** Sorts by inserting each element before the later elements that tie with it, so ties keep their order. */
  function Sort<T>(leq: (T, T) -> bool, xs: seq<T>): (ys: seq<T>)
    ensures |ys| == |xs|
    ensures multiset(ys) == multiset(xs)
  {
    if xs == [] then []
    else
      assert xs == [xs[0]] + xs[1..];
      Insert(leq, xs[0], Sort(leq, xs[1..]))
  }

  lemma {:induction false} SameElements<T>(xs: seq<T>, ys: seq<T>)
    requires multiset(xs) == multiset(ys)
    ensures |xs| == |ys|
    ensures forall x :: x in xs <==> x in ys
  {
    assert |multiset(xs)| == |xs| && |multiset(ys)| == |ys|;
    forall x ensures x in xs <==> x in ys {
      assert x in xs <==> x in multiset(xs);
      assert x in ys <==> x in multiset(ys);
    }
  }

  lemma {:induction false} InsertSorted<T(!new)>(leq: (T, T) -> bool, x: T, xs: seq<T>)
    requires TotalPreorder(leq) && Sorted(leq, xs)
    ensures Sorted(leq, Insert(leq, x, xs))
  {
    if xs != [] && !leq(x, xs[0]) {
      InsertSorted(leq, x, xs[1..]);
      var rest := Insert(leq, x, xs[1..]);
      forall j | 0 <= j < |rest| ensures leq(xs[0], rest[j]) {
        assert rest[j] in multiset(rest);
        assert rest[j] == x || rest[j] in xs[1..];
      }
    } else if xs != [] {
      forall j | 0 <= j < |xs| ensures leq(x, xs[j]) { }
    }
  }

  lemma {:induction false} SortSorted<T(!new)>(leq: (T, T) -> bool, xs: seq<T>)
    requires TotalPreorder(leq)
    ensures Sorted(leq, Sort(leq, xs))
  {
    if xs != [] {
      SortSorted(leq, xs[1..]);
      InsertSorted(leq, xs[0], Sort(leq, xs[1..]));
    }
  }

  lemma {:induction false} SortedTail<T>(leq: (T, T) -> bool, xs: seq<T>)
    requires xs != [] && Sorted(leq, xs)
    ensures Sorted(leq, xs[1..])
  {
    forall i, j | 0 <= i < j < |xs[1..]| ensures leq(xs[1..][i], xs[1..][j]) {
      assert xs[1..][i] == xs[i + 1] && xs[1..][j] == xs[j + 1];
    }
  }

  /** Sorting what is already in order changes nothing. */
  lemma {:induction false} SortIdentity<T>(leq: (T, T) -> bool, xs: seq<T>)
    requires Sorted(leq, xs)
    ensures Sort(leq, xs) == xs
  {
    if xs != [] {
      SortedTail(leq, xs);
      SortIdentity(leq, xs[1..]);
      if |xs| > 1 { assert leq(xs[0], xs[1]); }
    }
  }

  /** Two sorted arrangements start with elements that tie. */
  lemma {:induction false} SortedHeads<T(!new)>(leq: (T, T) -> bool, xs: seq<T>, ys: seq<T>)
    requires xs != [] && Sorted(leq, xs) && Sorted(leq, ys) && multiset(xs) == multiset(ys)
    ensures ys != [] && ys[0] in xs && xs[0] in ys
    ensures xs[0] == ys[0] || (leq(xs[0], ys[0]) && leq(ys[0], xs[0]))
  {
    SameElements(xs, ys);
    assert xs[0] in xs && ys[0] in ys;
    var i :| 0 <= i < |ys| && ys[i] == xs[0];
    var j :| 0 <= j < |xs| && xs[j] == ys[0];
    if i != 0 && j != 0 {
      assert leq(ys[0], ys[i]) && leq(xs[0], xs[j]);
    }
  }

  lemma {:induction false} SameTails<T>(xs: seq<T>, ys: seq<T>)
    requires xs != [] && ys != [] && xs[0] == ys[0] && multiset(xs) == multiset(ys)
    ensures multiset(xs[1..]) == multiset(ys[1..])
  {
    assert xs == [xs[0]] + xs[1..] && ys == [ys[0]] + ys[1..];
    assert multiset(xs[1..]) == multiset(xs) - multiset{xs[0]};
    assert multiset(ys[1..]) == multiset(ys) - multiset{xs[0]};
  }

  /** When no two distinct elements tie, the sorted arrangement of a multiset is unique. */
  lemma {:induction false} SortedUnique<T(!new)>(leq: (T, T) -> bool, xs: seq<T>, ys: seq<T>)
    requires Sorted(leq, xs) && Sorted(leq, ys) && multiset(xs) == multiset(ys)
    requires forall x, y :: x in xs && y in xs && leq(x, y) && leq(y, x) ==> x == y
    ensures xs == ys
  {
    SameElements(xs, ys);
    if xs != [] {
      SortedHeads(leq, xs, ys);
      assert xs[0] == ys[0];
      SameTails(xs, ys);
      SortedTail(leq, xs);
      SortedTail(leq, ys);
      SortedUnique(leq, xs[1..], ys[1..]);
      assert xs == [xs[0]] + xs[1..] && ys == [ys[0]] + ys[1..];
    }
  }

  function TyingWith<T>(leq: (T, T) -> bool, x: T): T -> bool {
    y => leq(x, y) && leq(y, x)
  }

  lemma {:induction false} InsertStable<T(!new)>(leq: (T, T) -> bool, k: T, x: T, xs: seq<T>)
    requires TotalPreorder(leq)
    ensures Filter(TyingWith(leq, k), Insert(leq, x, xs)) == Filter(TyingWith(leq, k), [x] + xs)
  {
    var p := TyingWith(leq, k);
    if xs != [] && !leq(x, xs[0]) {
      InsertStable(leq, k, x, xs[1..]);
      assert !(p(x) && p(xs[0]));
      assert [x] + xs == [x] + ([xs[0]] + xs[1..]);
      assert ([x] + xs)[1..] == xs && ([x] + xs[1..])[1..] == xs[1..];
    }
  }

  /** Elements that tie keep the order they came in. */
  lemma {:induction false} SortStable<T(!new)>(leq: (T, T) -> bool, k: T, xs: seq<T>)
    requires TotalPreorder(leq)
    ensures Filter(TyingWith(leq, k), Sort(leq, xs)) == Filter(TyingWith(leq, k), xs)
  {
    if xs != [] {
      var p := TyingWith(leq, k);
      SortStable(leq, k, xs[1..]);
      InsertStable(leq, k, xs[0], Sort(leq, xs[1..]));
      FilterConcat(p, [xs[0]], Sort(leq, xs[1..]));
      FilterConcat(p, [xs[0]], xs[1..]);
      assert xs == [xs[0]] + xs[1..];
    }
  }
}
