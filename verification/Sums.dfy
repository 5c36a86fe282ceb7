/** Totals of rows, and how they move when one row does. */
module Sums {
  function Total(xs: seq<int>): int {
    if xs == [] then 0 else Total(xs[..|xs| - 1]) + xs[|xs| - 1]
  }

  lemma TotalOfOneMore(xs: seq<int>, x: int)
    ensures Total(xs + [x]) == Total(xs) + x
  {
    assert (xs + [x])[..|xs|] == xs;
  }

  lemma TotalOfPrefix(xs: seq<int>, n: nat)
    requires n < |xs|
    ensures Total(xs[..n + 1]) == Total(xs[..n]) + xs[n]
  {
    assert xs[..n + 1] == xs[..n] + [xs[n]];
    TotalOfOneMore(xs[..n], xs[n]);
  }

  lemma {:induction false} TotalOfConcat(xs: seq<int>, ys: seq<int>)
    ensures Total(xs + ys) == Total(xs) + Total(ys)
  {
    if ys == [] {
      assert xs + ys == xs;
    } else {
      var head := ys[..|ys| - 1];
      TotalOfConcat(xs, head);
      assert xs + ys == (xs + head) + [ys[|ys| - 1]];
      TotalOfOneMore(xs + head, ys[|ys| - 1]);
    }
  }

  /** One row changed moves the total by what it changed. */
  lemma {:induction false} TotalOfUpdate(xs: seq<int>, k: nat, x: int)
    requires k < |xs|
    ensures Total(xs[k := x]) == Total(xs) + x - xs[k]
  {
    var n := |xs| - 1;
    if k == n {
      assert xs[k := x][..n] == xs[..n];
    } else {
      assert xs[k := x][..n] == xs[..n][k := x];
      TotalOfUpdate(xs[..n], k, x);
    }
  }

  /** Row by row at most is in total at most. */
  lemma {:induction false} TotalIsMonotone(xs: seq<int>, ys: seq<int>)
    requires |xs| == |ys| && forall k | 0 <= k < |xs| :: xs[k] <= ys[k]
    ensures Total(xs) <= Total(ys)
  {
    if xs != [] {
      TotalIsMonotone(xs[..|xs| - 1], ys[..|ys| - 1]);
    }
  }

  /** Totals add row by row. */
  lemma {:induction false} TotalOfSums(xs: seq<int>, ys: seq<int>, zs: seq<int>)
    requires |xs| == |ys| == |zs| && forall k | 0 <= k < |xs| :: zs[k] == xs[k] + ys[k]
    ensures Total(zs) == Total(xs) + Total(ys)
  {
    if xs != [] {
      TotalOfSums(xs[..|xs| - 1], ys[..|ys| - 1], zs[..|zs| - 1]);
    }
  }

  lemma {:induction false} TotalOfZeros(xs: seq<int>)
    requires forall k | 0 <= k < |xs| :: xs[k] == 0
    ensures Total(xs) == 0
  {
    if xs != [] {
      TotalOfZeros(xs[..|xs| - 1]);
    }
  }

  /** A prefix of rows that are not negative is no more than the whole. */
  lemma {:induction false} PrefixIsNoMore(xs: seq<int>, n: nat)
    requires n <= |xs| && forall k | 0 <= k < |xs| :: xs[k] >= 0
    ensures 0 <= Total(xs[..n]) <= Total(xs)
    decreases |xs| - n
  {
    if n == |xs| {
      assert xs[..n] == xs;
      TotalIsMonotone(seq(n, _ => 0), xs);
      TotalOfZeros(seq(n, _ => 0));
    } else {
      TotalOfPrefix(xs, n);
      PrefixIsNoMore(xs, n + 1);
      TotalIsMonotone(seq(n, _ => 0), xs[..n]);
      TotalOfZeros(seq(n, _ => 0));
    }
  }
}
