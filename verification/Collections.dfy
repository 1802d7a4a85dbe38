/** Sequence vocabulary shared by the models: counting, filtering, and the tail a bounded window keeps. */
module Collections {
  datatype Option<+T> = None | Some(value: T)

  datatype Result<+T, +E> = Success(value: T) | Failure(error: E)

  /** How many elements of `xs` satisfy `p`. */
  function Count<T>(p: T -> bool, xs: seq<T>): (n: nat)
    ensures n <= |xs|
  {
    if xs == [] then 0 else (if p(xs[0]) then 1 else 0) + Count(p, xs[1..])
  }

  lemma {:induction false} CountConcat<T>(p: T -> bool, xs: seq<T>, ys: seq<T>)
    ensures Count(p, xs + ys) == Count(p, xs) + Count(p, ys)
  {
    if xs == [] {
      assert xs + ys == ys;
    } else {
      assert (xs + ys)[1..] == xs[1..] + ys;
      CountConcat(p, xs[1..], ys);
    }
  }

  function Positions<T>(p: T -> bool, xs: seq<T>): set<nat> { set i: nat | i < |xs| && p(xs[i]) }

  /** A count is the number of positions that hold a satisfying element. */
  lemma {:induction false} CountPositions<T>(p: T -> bool, xs: seq<T>)
    ensures Count(p, xs) == |Positions(p, xs)|
  {
    if xs != [] {
      var last := |xs| - 1;
      assert xs == xs[..last] + [xs[last]];
      CountConcat(p, xs[..last], [xs[last]]);
      assert [xs[last]][1..] == [];
      CountPositions(p, xs[..last]);
      assert Positions(p, xs) == Positions(p, xs[..last]) + if p(xs[last]) then {last} else {};
    }
  }

  /** The two extremes of a count: every element, and none. */
  lemma {:induction false} CountExtremes<T>(p: T -> bool, xs: seq<T>)
    ensures Count(p, xs) == |xs| <==> forall x <- xs :: p(x)
    ensures Count(p, xs) == 0 <==> forall x <- xs :: !p(x)
  {
    if xs != [] {
      CountExtremes(p, xs[1..]);
      assert xs == [xs[0]] + xs[1..];
    }
  }

  /** Moving the element at `i` to the front does not change a count. */
  lemma {:induction false} CountRemove<T>(p: T -> bool, xs: seq<T>, i: nat)
    requires i < |xs|
    ensures Count(p, xs) == (if p(xs[i]) then 1 else 0) + Count(p, xs[..i] + xs[i + 1..])
  {
    assert xs == xs[..i] + ([xs[i]] + xs[i + 1..]);
    CountConcat(p, xs[..i], [xs[i]] + xs[i + 1..]);
    CountConcat(p, xs[..i], xs[i + 1..]);
  }

  lemma {:induction false} MultisetRemove<T>(xs: seq<T>, i: nat)
    requires i < |xs|
    ensures multiset(xs[..i] + xs[i + 1..]) == multiset(xs) - multiset{xs[i]}
  {
    assert xs == xs[..i] + ([xs[i]] + xs[i + 1..]);
  }

  /** A count sees only the multiset of elements, never their order. */
  lemma {:induction false} CountPermutation<T>(p: T -> bool, xs: seq<T>, ys: seq<T>)
    requires multiset(xs) == multiset(ys)
    ensures Count(p, xs) == Count(p, ys)
  {
    if xs == [] {
      assert |ys| == |multiset(ys)| == 0;
    } else {
      assert xs == [xs[0]] + xs[1..];
      assert xs[0] in multiset(ys);
      var i :| 0 <= i < |ys| && ys[i] == xs[0];
      MultisetRemove(xs, 0);
      MultisetRemove(ys, i);
      assert xs[..0] + xs[1..] == xs[1..];
      CountRemove(p, ys, i);
      CountPermutation(p, xs[1..], ys[..i] + ys[i + 1..]);
    }
  }

  /** The elements of `xs` satisfying `p`, in order: a filtering comprehension. */
  function Filter<T>(p: T -> bool, xs: seq<T>): (ys: seq<T>)
    ensures |ys| <= |xs|
    ensures forall y <- ys :: y in xs && p(y)
  {
    if xs == [] then []
    else if p(xs[0]) then [xs[0]] + Filter(p, xs[1..])
    else Filter(p, xs[1..])
  }

  lemma {:induction false} FilterConcat<T>(p: T -> bool, xs: seq<T>, ys: seq<T>)
    ensures Filter(p, xs + ys) == Filter(p, xs) + Filter(p, ys)
  {
    if xs == [] {
      assert xs + ys == ys;
    } else {
      assert (xs + ys)[1..] == xs[1..] + ys;
      FilterConcat(p, xs[1..], ys);
    }
  }

  lemma {:induction false} FilterPrefix<T>(p: T -> bool, prefix: seq<T>, xs: seq<T>)
    requires prefix <= xs
    ensures Filter(p, prefix) <= Filter(p, xs)
  {
    assert xs == prefix + xs[|prefix|..];
    FilterConcat(p, prefix, xs[|prefix|..]);
  }

  lemma {:induction false} FilterKeeps<T>(p: T -> bool, xs: seq<T>)
    ensures forall x <- xs :: p(x) ==> x in Filter(p, xs)
    ensures Filter(p, xs) == [] <==> forall x <- xs :: !p(x)
  {
    if xs != [] {
      FilterKeeps(p, xs[1..]);
      assert xs == [xs[0]] + xs[1..];
    }
  }

  /** The last `n` elements of `xs`, or all of them when there are fewer. */
  function LastN<T>(xs: seq<T>, n: nat): (ys: seq<T>)
    ensures |ys| == if |xs| < n then |xs| else n
  {
    if |xs| <= n then xs else xs[|xs| - n..]
  }
}
