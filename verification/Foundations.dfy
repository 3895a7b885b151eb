/** Facts about multiplication and remainders. */
module Arithmetic {
  lemma MultipleBounds(n: int, d: int)
    requires n >= 1
    ensures d >= 1 ==> n * d >= n
    ensures d <= 0 ==> n * d <= 0
  {
  }

  /** Numbers less than n apart have different remainders. */
  lemma ModuloDistinct(a: int, b: int, n: int)
    requires n >= 1 && a < b < a + n
    ensures a % n != b % n
  {
    var qa, qb := a / n, b / n;
    assert a == n * qa + a % n && b == n * qb + b % n;
    MultipleBounds(n, qb - qa);
    assert n * (qb - qa) == n * qb - n * qa;
  }
}

/** Facts about remainders of sums and products. */
module Remainders {
  import opened Arithmetic

  lemma RemainderUnique(a: int, q: int, r: int, m: int)
    requires m >= 1 && a == m * q + r && 0 <= r < m
    ensures a % m == r
  {
    assert a == m * (a / m) + a % m;
    assert m * (q - a / m) == m * q - m * (a / m);
    MultipleBounds(m, q - a / m);
    MultipleBounds(m, a / m - q);
    assert m * (a / m - q) == m * (a / m) - m * q;
  }

  lemma RemainderOfSum(x: int, y: int, m: int)
    requires m >= 1
    ensures (x % m + y) % m == (x + y) % m
  {
    var s := x + y;
    assert x % m + y == m * (s / m - x / m) + s % m by {
      assert x == m * (x / m) + x % m && s == m * (s / m) + s % m;
      assert m * (s / m - x / m) == m * (s / m) - m * (x / m);
    }
    RemainderUnique(x % m + y, s / m - x / m, s % m, m);
  }

  lemma RemainderOfProduct(x: int, y: int, m: int)
    requires m >= 1
    ensures (x % m * y) % m == (x * y) % m
  {
    var p, q := x * y, x / m;
    assert x % m * y == m * (p / m - q * y) + p % m by {
      assert p == m * (p / m) + p % m && x == m * q + x % m;
      assert x * y == m * q * y + x % m * y;
      assert m * (p / m - q * y) == m * (p / m) - m * q * y;
    }
    RemainderUnique(x % m * y, p / m - q * y, p % m, m);
  }
}

/** Sums of a weight over the threads of a system.  Every conservation law about semaphores
    is stated with `Sum`: one thread's step changes one summand. */
module Sums {
  ghost function Sum<T>(xs: seq<T>, weight: T -> int): int {
    if xs == [] then 0 else weight(xs[0]) + Sum(xs[1..], weight)
  }

  lemma {:induction false} SumUpdate<T>(xs: seq<T>, i: nat, x: T, weight: T -> int)
    requires i < |xs|
    ensures Sum(xs[i := x], weight) == Sum(xs, weight) - weight(xs[i]) + weight(x)
  {
    var ys := xs[i := x];
    if i == 0 {
      assert ys[1..] == xs[1..];
    } else {
      assert ys[1..] == xs[1..][i - 1 := x];
      SumUpdate(xs[1..], i - 1, x, weight);
    }
  }

  lemma {:induction false} SumSplit<T>(xs: seq<T>, ys: seq<T>, weight: T -> int)
    ensures Sum(xs + ys, weight) == Sum(xs, weight) + Sum(ys, weight)
  {
    if xs == [] {
      assert xs + ys == ys;
    } else {
      assert (xs + ys)[1..] == xs[1..] + ys;
      SumSplit(xs[1..], ys, weight);
    }
  }

  /** With weights that are never negative, the sum is at least any one summand, and at least
      any two different ones together. */
  lemma {:induction false} SumAtLeast<T>(xs: seq<T>, i: nat, weight: T -> int)
    requires i < |xs|
    requires forall k :: 0 <= k < |xs| ==> weight(xs[k]) >= 0
    ensures Sum(xs, weight) >= weight(xs[i])
  {
    SumNonNegative(xs[1..], weight);
    if i > 0 {
      SumAtLeast(xs[1..], i - 1, weight);
    }
  }

  lemma {:induction false} SumAtLeastTwo<T>(xs: seq<T>, i: nat, j: nat, weight: T -> int)
    requires i < j < |xs|
    requires forall k :: 0 <= k < |xs| ==> weight(xs[k]) >= 0
    ensures Sum(xs, weight) >= weight(xs[i]) + weight(xs[j])
  {
    if i == 0 {
      SumAtLeast(xs[1..], j - 1, weight);
    } else {
      SumAtLeastTwo(xs[1..], i - 1, j - 1, weight);
    }
  }

  lemma {:induction false} SumNonNegative<T>(xs: seq<T>, weight: T -> int)
    requires forall k :: 0 <= k < |xs| ==> weight(xs[k]) >= 0
    ensures Sum(xs, weight) >= 0
  {
    if xs != [] {
      SumNonNegative(xs[1..], weight);
    }
  }

  lemma {:induction false} SumZero<T>(xs: seq<T>, weight: T -> int)
    requires forall k :: 0 <= k < |xs| ==> weight(xs[k]) == 0
    ensures Sum(xs, weight) == 0
  {
    if xs != [] {
      SumZero(xs[1..], weight);
    }
  }

  lemma {:induction false} SumSame<T>(xs: seq<T>, weight: T -> int, weight': T -> int)
    requires forall k :: 0 <= k < |xs| ==> weight(xs[k]) == weight'(xs[k])
    ensures Sum(xs, weight) == Sum(xs, weight')
  {
    if xs != [] {
      SumSame(xs[1..], weight, weight');
    }
  }

  lemma SumOfTwo<T>(xs: seq<T>, weight: T -> int)
    requires |xs| == 2
    ensures Sum(xs, weight) == weight(xs[0]) + weight(xs[1])
  {
    var rest := xs[1..];
    assert Sum(rest, weight) == weight(rest[0]) + Sum(rest[1..], weight);
  }

  lemma SumOfOne<T>(x: T, weight: T -> int)
    ensures Sum([x], weight) == weight(x)
  {
    assert [x][1..] == [];
  }

  /** A sum that is not zero has a summand that is not zero. */
  lemma {:induction false} SomeNonZero<T>(xs: seq<T>, weight: T -> int) returns (i: nat)
    requires Sum(xs, weight) != 0
    ensures i < |xs| && weight(xs[i]) != 0
  {
    if weight(xs[0]) != 0 {
      i := 0;
    } else {
      i := SomeNonZero(xs[1..], weight);
      i := i + 1;
    }
  }
}

module Sets {
  lemma EmptyWhenNoMember<T>(u: set<T>)
    ensures (forall x :: x !in u) ==> u == {}
  {
  }

  lemma Pick<T>(u: set<T>) returns (x: T)
    requires u != {}
    ensures x in u
  {
    EmptyWhenNoMember(u);
    x :| x in u;
  }
}

/** Finite runs of a transition system: every reachable state ends some run. */
module Runs {
  ghost predicate IsRun<S>(run: seq<S>, init: S -> bool, next: (S, S) -> bool) {
    && |run| > 0
    && init(run[0])
    && forall i :: 0 < i < |run| ==> next(run[i - 1], run[i])
  }

  lemma {:induction false} Invariance<S(!new)>(run: seq<S>, init: S -> bool, next: (S, S) -> bool, inv: S -> bool)
    requires IsRun(run, init, next)
    requires forall s :: init(s) ==> inv(s)
    requires forall s, s' :: inv(s) && next(s, s') ==> inv(s')
    ensures forall i :: 0 <= i < |run| ==> inv(run[i])
  {
    if |run| > 1 {
      var shorter := run[..|run| - 1];
      Invariance(shorter, init, next, inv);
      assert inv(shorter[|run| - 2]);
      assert next(run[|run| - 2], run[|run| - 1]);
      forall i | 0 <= i < |run| ensures inv(run[i]) {
        if i < |run| - 1 {
          assert run[i] == shorter[i];
        }
      }
    }
  }

  /** What holds between every state and the next, and carries over, holds between any two. */
  lemma {:induction false} Growth<S(!new)>(run: seq<S>, init: S -> bool, next: (S, S) -> bool, later: (S, S) -> bool,
            i: nat, j: nat)
    requires IsRun(run, init, next) && i <= j < |run|
    requires forall s :: later(s, s)
    requires forall s, s' :: next(s, s') ==> later(s, s')
    requires forall a, b, c :: later(a, b) && later(b, c) ==> later(a, c)
    ensures later(run[i], run[j])
  {
    if i < j {
      Growth(run, init, next, later, i, j - 1);
      assert next(run[j - 1], run[j]);
    }
  }

  /** A quantity that falls by exactly one with each step measures the length of the run. */
  lemma {:induction false} Countdown<S(!new)>(run: seq<S>, init: S -> bool, next: (S, S) -> bool, inv: S -> bool,
            measure: S -> int)
    requires IsRun(run, init, next)
    requires forall s :: init(s) ==> inv(s)
    requires forall s, s' :: inv(s) && next(s, s') ==> inv(s') && measure(s') == measure(s) - 1
    ensures measure(run[|run| - 1]) == measure(run[0]) - (|run| - 1)
  {
    Invariance(run, init, next, inv);
    if |run| > 1 {
      var shorter := run[..|run| - 1];
      Countdown(shorter, init, next, inv, measure);
      assert next(run[|run| - 2], run[|run| - 1]);
    }
  }
}
