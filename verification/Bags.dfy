/** Multiset sums over sequences: the order-free view of "all the rows in these places". */
module Bags {

  lemma {:induction false} Cancel<R>(a: multiset<R>, b: multiset<R>, c: multiset<R>)
    requires a + c == b + c
    ensures a == b
  {
    assert a + c - c == a;
    assert b + c - c == b;
  }

  /** The multiset union of `f` over every element of `xs`. */
  ghost function SumOver<T, R>(xs: seq<T>, f: T -> multiset<R>): multiset<R> {
    if xs == [] then multiset{} else f(xs[0]) + SumOver(xs[1..], f)
  }

  lemma {:induction false} SumAppend<T, R>(xs: seq<T>, ys: seq<T>, f: T -> multiset<R>)
    ensures SumOver(xs + ys, f) == SumOver(xs, f) + SumOver(ys, f)
  {
    if xs == [] {
      assert xs + ys == ys;
    } else {
      assert (xs + ys)[1..] == xs[1..] + ys;
      SumAppend(xs[1..], ys, f);
    }
  }

  lemma {:induction false} SumNone<T, R>(f: T -> multiset<R>)
    ensures SumOver([], f) == multiset{}
  {
  }

  lemma {:induction false} SumSingle<T, R>(x: T, f: T -> multiset<R>)
    ensures SumOver([x], f) == f(x)
  {
    assert [x][1..] == [];
  }

  /** Cutting out position `i`. */
  lemma {:induction false} SumSplit<T, R>(xs: seq<T>, i: nat, f: T -> multiset<R>)
    requires i < |xs|
    ensures SumOver(xs, f) == SumOver(xs[..i], f) + f(xs[i]) + SumOver(xs[i+1..], f)
    ensures SumOver(xs[..i] + xs[i+1..], f) + f(xs[i]) == SumOver(xs, f)
  {
    assert xs == xs[..i] + ([xs[i]] + xs[i+1..]);
    SumAppend(xs[..i], [xs[i]] + xs[i+1..], f);
    SumAppend([xs[i]], xs[i+1..], f);
    SumSingle(xs[i], f);
    SumAppend(xs[..i], xs[i+1..], f);
  }

  lemma {:induction false} SumUpdate<T, R>(xs: seq<T>, i: nat, y: T, f: T -> multiset<R>)
    requires i < |xs|
    ensures SumOver(xs[i := y], f) + f(xs[i]) == SumOver(xs, f) + f(y)
  {
    SumSplit(xs, i, f);
    SumSplit(xs[i := y], i, f);
    assert xs[i := y][..i] == xs[..i];
    assert xs[i := y][i+1..] == xs[i+1..];
  }

  /** Replacing one element by one that contributes `gone` less. */
  lemma {:induction false} SumShrink<T, R>(xs: seq<T>, i: nat, y: T, f: T -> multiset<R>, gone: multiset<R>)
    requires i < |xs| && f(xs[i]) == f(y) + gone
    ensures SumOver(xs[i := y], f) + gone == SumOver(xs, f)
    ensures SumOver(xs[i := y], f) == SumOver(xs, f) - gone
  {
    SumUpdate(xs, i, y, f);
    var (was, now) := (SumOver(xs, f), SumOver(xs[i := y], f));
    assert now + gone + f(y) == now + f(xs[i]) == was + f(y);
    Cancel(now + gone, was, f(y));
    assert now + gone - gone == now;
  }

  /** Two sequences that agree position by position have the same sum. */
  lemma {:induction false} SumCongruent<T, U, R>(xs: seq<T>, f: T -> multiset<R>, ys: seq<U>, g: U -> multiset<R>)
    requires |xs| == |ys|
    requires forall i :: 0 <= i < |xs| ==> f(xs[i]) == g(ys[i])
    ensures SumOver(xs, f) == SumOver(ys, g)
  {
    if xs != [] {
      SumCongruent(xs[1..], f, ys[1..], g);
    }
  }

  lemma {:induction false} InSum<T, R>(xs: seq<T>, f: T -> multiset<R>, r: R)
    ensures r in SumOver(xs, f) <==> exists i :: 0 <= i < |xs| && r in f(xs[i])
  {
    if xs != [] {
      InSum(xs[1..], f, r);
      if r in SumOver(xs[1..], f) {
        var i :| 0 <= i < |xs[1..]| && r in f(xs[1..][i]);
        assert r in f(xs[i+1]);
      }
      if i :| 0 <= i < |xs| && r in f(xs[i]) {
        if i > 0 {
          assert r in f(xs[1..][i-1]);
        }
      }
    }
  }

  /** Every element contributes at most the whole. */
  lemma {:induction false} SumBound<T, R>(xs: seq<T>, f: T -> multiset<R>, i: nat, r: R)
    requires i < |xs|
    ensures f(xs[i])[r] <= SumOver(xs, f)[r]
  {
    SumSplit(xs, i, f);
  }

  /** Two different positions that both contribute `r` make it occur twice. */
  lemma {:induction false} SumTwice<T, R>(xs: seq<T>, f: T -> multiset<R>, i: nat, j: nat, r: R)
    requires i < j < |xs| && r in f(xs[i]) && r in f(xs[j])
    ensures SumOver(xs, f)[r] >= 2
  {
    SumSplit(xs, i, f);
    var rest := xs[i+1..];
    assert rest[j-i-1] == xs[j];
    SumBound(rest, f, j-i-1, r);
  }

  lemma {:induction false} BagWithout<T>(ys: seq<T>, j: nat)
    requires j < |ys|
    ensures multiset(ys[..j] + ys[j+1..]) == multiset(ys) - multiset{ys[j]}
  {
    assert ys == ys[..j] + ([ys[j]] + ys[j+1..]);
    assert multiset(ys) == multiset(ys[..j]) + multiset([ys[j]] + ys[j+1..]);
  }

  /** The sum does not depend on the order of the elements. */
  lemma {:induction false} SumPermuted<T, R>(xs: seq<T>, ys: seq<T>, f: T -> multiset<R>)
    requires multiset(xs) == multiset(ys)
    ensures SumOver(xs, f) == SumOver(ys, f)
  {
    hide SumOver;
    SameLength(xs, ys);
    if xs == [] {
      assert ys == [];
    } else {
      var j := Elsewhere(xs, ys);
      var rest := ys[..j] + ys[j+1..];
      SumPermuted(xs[1..], rest, f);
      SumSplit(ys, j, f);
      SumHead(xs, f);
    }
  }

  lemma {:induction false} SameLength<T>(xs: seq<T>, ys: seq<T>)
    requires multiset(xs) == multiset(ys)
    ensures |xs| == |ys|
  {
    assert |xs| == |multiset(xs)| == |ys|;
  }

  lemma {:induction false} SumHead<T, R>(xs: seq<T>, f: T -> multiset<R>)
    requires xs != []
    ensures SumOver(xs, f) == f(xs[0]) + SumOver(xs[1..], f)
  {
  }

  /** Where the first element of `xs` is in a permutation of it. */
  lemma {:induction false} Elsewhere<T>(xs: seq<T>, ys: seq<T>) returns (j: nat)
    requires xs != [] && multiset(xs) == multiset(ys)
    ensures j < |ys| && ys[j] == xs[0] && multiset(xs[1..]) == multiset(ys[..j] + ys[j+1..])
  {
    BagTail(xs);
    j := Somewhere(ys, xs[0], multiset(xs));
    BagWithout(ys, j);
  }

  lemma {:induction false} BagTail<T>(xs: seq<T>)
    requires xs != []
    ensures multiset(xs[1..]) == multiset(xs) - multiset{xs[0]} && xs[0] in multiset(xs)
  {
    assert xs == [xs[0]] + xs[1..];
  }

  lemma {:induction false} Somewhere<T>(ys: seq<T>, x: T, bag: multiset<T>) returns (j: nat)
    requires multiset(ys) == bag && x in bag
    ensures j < |ys| && ys[j] == x
  {
    j :| 0 <= j < |ys| && ys[j] == x;
  }

  ghost predicate Distinct<T(!new)>(xs: seq<T>) {
    forall i, j :: 0 <= i < j < |xs| ==> xs[i] != xs[j]
  }

  lemma {:induction false} DistinctCount<T(!new)>(xs: seq<T>, x: T)
    requires Distinct(xs)
    ensures multiset(xs)[x] == if x in xs then 1 else 0
  {
    if xs != [] {
      assert xs == [xs[0]] + xs[1..];
      DistinctCount(xs[1..], x);
    }
  }
}
