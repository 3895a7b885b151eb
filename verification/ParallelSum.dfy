/** The mutex-protected parallel sum.  `gsum += i` is a load and a store, so an update could be
    lost if two threads interleaved there; the semaphore makes sure that none is. */
module ParallelSum {
  import opened Arithmetic
  import opened Remainders
  import opened Sums
  import Runs

  datatype Pc =
    | Head               // testing i < end, then P(&mutex)
    | Locked             // before loading gsum
    | Loaded(v: int)     // before storing v + i
    | Stored             // before V(&mutex); i++

  datatype Adder = Adder(i: int, end: int, pc: Pc)

  datatype State = State(gsum: int, mutex: nat, threads: seq<Adder>)

  /** Thread t adds the elements t * per up to (t + 1) * per. */
  function Start(nthreads: nat, per: nat): State {
    State(0, 1, seq(nthreads, t => Adder(t * per, t * per + per, Head)))
  }

  predicate Enabled(s: State, t: nat) {
    && t < |s.threads|
    && (s.threads[t].pc == Head ==> s.threads[t].i < s.threads[t].end && s.mutex > 0)
  }

  function Step(s: State, t: nat): State
    requires Enabled(s, t)
  {
    var th := s.threads[t];
    match th.pc
    case Head => s.(mutex := s.mutex - 1, threads := s.threads[t := th.(pc := Locked)])
    case Locked => s.(threads := s.threads[t := th.(pc := Loaded(s.gsum))])
    case Loaded(v) => s.(gsum := v + th.i, threads := s.threads[t := th.(pc := Stored)])
    case Stored => s.(mutex := s.mutex + 1, threads := s.threads[t := th.(pc := Head, i := th.i + 1)])
  }

  ghost predicate Next(s: State, s': State) {
    exists t: nat :: Enabled(s, t) && s' == Step(s, t)
  }

  // ----- Conservation of the sum -----

  ghost function RangeSum(lo: int, hi: int): int
    decreases hi - lo
  {
    if lo >= hi then 0 else lo + RangeSum(lo + 1, hi)
  }

  ghost function HoldsMutex(th: Adder): int { if th.pc == Head then 0 else 1 }

  /** What a thread has yet to add. */
  ghost function Unadded(th: Adder): int { RangeSum(if th.pc == Stored then th.i + 1 else th.i, th.end) }

  ghost predicate ThreadOk(s: State, th: Adder) {
    && th.i <= th.end
    && (th.pc != Head ==> th.i < th.end)
    && (th.pc.Loaded? ==> th.pc.v == s.gsum)
  }

  ghost predicate Inv(s: State, total: int) {
    && s.mutex + Sum(s.threads, HoldsMutex) == 1
    && s.gsum + Sum(s.threads, Unadded) == total
    && forall t :: 0 <= t < |s.threads| ==> ThreadOk(s, s.threads[t])
  }

  lemma OnlyOneInside(s: State, t: nat, u: nat)
    requires s.mutex + Sum(s.threads, HoldsMutex) == 1
    requires t < |s.threads| && u < |s.threads| && t != u && s.threads[t].pc != Head
    ensures s.threads[u].pc == Head
  {
    if t < u {
      SumAtLeastTwo(s.threads, t, u, HoldsMutex);
    } else {
      SumAtLeastTwo(s.threads, u, t, HoldsMutex);
    }
  }

  /** No interleaving loses an update: gsum and the elements still to be added make up the same
      total after every step. */
  lemma StepKeepsInv(s: State, total: int, t: nat)
    requires Inv(s, total) && Enabled(s, t)
    ensures Inv(Step(s, t), total)
  {
    var s' := Step(s, t);
    assert ThreadOk(s, s.threads[t]);
    SumUpdate(s.threads, t, s'.threads[t], HoldsMutex);
    SumUpdate(s.threads, t, s'.threads[t], Unadded);
    forall u | 0 <= u < |s'.threads| ensures ThreadOk(s', s'.threads[u]) {
      assert ThreadOk(s, s.threads[u]);
      if u != t && s.threads[t].pc != Head {
        OnlyOneInside(s, t, u);
      }
    }
  }

  lemma {:induction false} RangeSumSplit(lo: int, mid: int, hi: int)
    requires lo <= mid <= hi
    ensures RangeSum(lo, hi) == RangeSum(lo, mid) + RangeSum(mid, hi)
    decreases mid - lo
  {
    if lo < mid {
      RangeSumSplit(lo + 1, mid, hi);
    }
  }

  lemma {:induction false} RangeSumClosed(n: nat)
    ensures 2 * RangeSum(0, n) == n * (n - 1)
  {
    if n > 0 {
      RangeSumClosed(n - 1);
      RangeSumSplit(0, n - 1, n);
      assert RangeSum(n - 1, n) == n - 1 + RangeSum(n, n);
      assert n * (n - 1) == (n - 1) * (n - 2) + 2 * (n - 1);
    }
  }

  lemma RangeSumHalf(n: nat)
    ensures RangeSum(0, n) == n * (n - 1) / 2
  {
    RangeSumClosed(n);
  }

  lemma {:induction false} StartUnadded(nthreads: nat, per: nat, t: nat)
    requires t <= nthreads
    ensures t * per <= nthreads * per
    ensures Sum(Start(nthreads, per).threads[t..], Unadded) == RangeSum(t * per, nthreads * per)
    decreases nthreads - t
  {
    var threads := Start(nthreads, per).threads;
    if t < nthreads {
      assert (t + 1) * per == t * per + per;
      StartUnadded(nthreads, per, t + 1);
      RangeSumSplit(t * per, t * per + per, nthreads * per);
      assert threads[t..][1..] == threads[t + 1..];
    }
  }

  lemma StartEstablishesInv(nthreads: nat, per: nat)
    ensures Inv(Start(nthreads, per), RangeSum(0, nthreads * per))
  {
    var s := Start(nthreads, per);
    SumZero(s.threads, HoldsMutex);
    StartUnadded(nthreads, per, 0);
    assert s.threads[0..] == s.threads;
  }

  // ----- Progress and the final check -----

  ghost predicate Stuck(s: State) {
    forall t: nat :: !Enabled(s, t)
  }

  ghost predicate Finished(s: State) {
    forall t :: 0 <= t < |s.threads| ==> s.threads[t].pc == Head && s.threads[t].i == s.threads[t].end
  }

  lemma StuckExactlyWhenFinished(s: State, total: int)
    requires Inv(s, total)
    ensures Stuck(s) <==> Finished(s)
    ensures Finished(s) ==> s.gsum == total
  {
    if Stuck(s) && !Finished(s) {
      if t: nat :| t < |s.threads| && s.threads[t].pc != Head {
        assert Enabled(s, t);
      } else {
        SumZero(s.threads, HoldsMutex);
        var t: nat :| t < |s.threads| && s.threads[t].i != s.threads[t].end;
        assert ThreadOk(s, s.threads[t]);
        assert Enabled(s, t);
      }
    }
    if Finished(s) {
      SumZero(s.threads, Unadded);
    }
  }

  ghost function StepsDone(pc: Pc): int {
    match pc case Head => 0 case Locked => 1 case Loaded(_) => 2 case Stored => 3
  }

  ghost function Work(th: Adder): int { 4 * (th.end - th.i) - StepsDone(th.pc) }

  lemma {:induction false} StartWork(nthreads: nat, per: nat, t: nat)
    requires t <= nthreads
    ensures Sum(Start(nthreads, per).threads[t..], Work) == 4 * (nthreads * per - t * per)
    decreases nthreads - t
  {
    var threads := Start(nthreads, per).threads;
    if t < nthreads {
      assert (t + 1) * per == t * per + per;
      StartWork(nthreads, per, t + 1);
      assert threads[t..][1..] == threads[t + 1..];
    }
  }

  lemma TotalWork(nthreads: nat, per: nat, nelems: int)
    requires nelems == nthreads * per
    ensures Sum(Start(nthreads, per).threads, Work) == 4 * nelems
  {
    StartWork(nthreads, per, 0);
    assert Start(nthreads, per).threads[0..] == Start(nthreads, per).threads;
  }

  lemma StepDoesOneUnitOfWork(s: State, s': State, total: int)
    requires Inv(s, total) && Next(s, s')
    ensures Inv(s', total) && Sum(s'.threads, Work) == Sum(s.threads, Work) - 1
  {
    var t: nat :| Enabled(s, t) && s' == Step(s, t);
    StepKeepsInv(s, total, t);
    SumUpdate(s.threads, t, s'.threads[t], Work);
  }

  lemma RunsKeepInv(run: seq<State>, nthreads: nat, per: nat, nelems: int)
    requires Runs.IsRun(run, (s: State) => s == Start(nthreads, per), Next) && nelems == nthreads * per
    ensures forall i :: 0 <= i < |run| ==> Inv(run[i], RangeSum(0, nelems))
    ensures Sum(run[|run| - 1].threads, Work) == 4 * nelems - (|run| - 1)
  {
    var total := RangeSum(0, nelems);
    var inv := (s: State) => Inv(s, total);
    var work := (s: State) => Sum(s.threads, Work);
    StartEstablishesInv(nthreads, per);
    TotalWork(nthreads, per, nelems);
    forall s, s' | inv(s) && Next(s, s') ensures inv(s') && work(s') == work(s) - 1 {
      StepDoesOneUnitOfWork(s, s', total);
    }
    Runs.Invariance(run, (s: State) => s == Start(nthreads, per), Next, inv);
    Runs.Countdown(run, (s: State) => s == Start(nthreads, per), Next, inv, work);
    forall i | 0 <= i < |run| ensures Inv(run[i], total) {
      assert inv(run[i]);
    }
  }

  /** For any number of threads and any interleaving, a run that cannot go on has every thread
      finished, took four steps per element, and passes the final check of `main`. */
  lemma NoUpdateIsLost(run: seq<State>, nthreads: nat, per: nat, nelems: nat)
    requires Runs.IsRun(run, (s: State) => s == Start(nthreads, per), Next) && nelems == nthreads * per
    requires Stuck(run[|run| - 1])
    ensures Finished(run[|run| - 1])
    ensures run[|run| - 1].gsum == nelems * (nelems - 1) / 2 && |run| - 1 == 4 * nelems
  {
    RunsKeepInv(run, nthreads, per, nelems);
    var last := run[|run| - 1];
    StuckExactlyWhenFinished(last, RangeSum(0, nelems));
    SumZero(last.threads, Work);
    RangeSumHalf(nelems);
  }

  // ----- main's arguments -----

  function Pow2(k: nat): (p: int)
    ensures p >= 1
  {
    if k == 0 then 1 else 2 * Pow2(k - 1)
  }

  lemma {:induction false} Pow2Split(j: nat, k: nat)
    ensures Pow2(j + k) == Pow2(j) * Pow2(k)
  {
    if j > 0 {
      Pow2Split(j - 1, k);
      assert Pow2(j) * Pow2(k) == 2 * (Pow2(j - 1) * Pow2(k));
    }
  }

  lemma {:induction false} Pow2Monotone(j: nat, k: nat)
    requires j <= k
    ensures Pow2(j) <= Pow2(k)
  {
    if j < k {
      Pow2Monotone(j, k - 1);
    }
  }

  const MAXTHREADS := 32

  datatype Verdict = Refused | Accepted(per: int)

  /** The argument check of `main`, and the elements per thread.  The dividend is positive, so C's
      quotient and remainder are those written here, also for a negative count. */
  function CheckArguments(nthreads: int, logNelems: nat): Verdict
    requires nthreads != 0
  {
    if Pow2(logNelems) % nthreads != 0 || logNelems > 31 then Refused else Accepted(Pow2(logNelems) / nthreads)
  }

  lemma Pow2Divides(j: nat, k: nat)
    requires j <= k
    ensures Pow2(k) % Pow2(j) == 0
  {
    var p, q := Pow2(j), Pow2(k - j);
    Pow2Split(j, k - j);
    ExactMultiple(p, q);
  }

  lemma ExactMultiple(p: int, q: int)
    requires p >= 1
    ensures (p * q) % p == 0
  {
    RemainderUnique(p * q, q, 0, p);
  }

  lemma EvenFactor(d: int, q: int)
    requires d % 2 == 1 && (d * q) % 2 == 0
    ensures q % 2 == 0
  {
    assert d * q == 2 * (d / 2 * q) + q;
  }

  /** The only divisors of a power of two are smaller ones. */
  lemma {:induction false} DivisorOfPow2(d: int, k: nat) returns (j: nat)
    requires d >= 1 && Pow2(k) % d == 0
    ensures j <= k && d == Pow2(j)
  {
    var p := Pow2(k);
    ExactDivision(p, d);
    var q := p / d;
    if d == 1 {
      j := 0;
    } else if d % 2 == 0 {
      var e := d / 2;
      assert p == 2 * (e * q);
      if k == 0 {
        assert false;
      } else {
        assert Pow2(k - 1) == e * q;
        ExactMultiple(e, q);
        j := DivisorOfPow2(e, k - 1);
        j := j + 1;
      }
    } else {
      OddFactor(d, q, k);
      var r := q / 2;
      assert Pow2(k - 1) == d * r;
      ExactMultiple(d, r);
      j := DivisorOfPow2(d, k - 1);
    }
  }

  lemma OddFactor(d: int, q: int, k: nat)
    requires d > 1 && d % 2 == 1 && d * q == Pow2(k)
    ensures k >= 1 && q % 2 == 0 && Pow2(k - 1) == d * (q / 2)
  {
    if k == 0 {
      MultipleBounds(d, q);
      assert false;
    }
    EvenFactor(d, q);
    assert d * q == 2 * (d * (q / 2));
  }

  function Abs(x: int): int { if x < 0 then -x else x }

  lemma SameRemainder(p: int, d: int)
    requires d != 0
    ensures p % d == p % Abs(d)
  {
    if d < 0 {
      assert p == d * (p / d) + p % d;
      assert d * (p / d) == (-d) * (-(p / d));
      RemainderUnique(p, -(p / d), p % d, -d);
    }
  }

  /** `main` accepts exactly the powers of two up to the number of elements, and their negatives, for
      at most 2^31 elements. */
  lemma AcceptedExactly(nthreads: int, logNelems: nat)
    requires nthreads != 0
    ensures CheckArguments(nthreads, logNelems).Accepted? <==>
        logNelems <= 31 && exists j: nat :: j <= logNelems && Abs(nthreads) == Pow2(j)
  {
    SameRemainder(Pow2(logNelems), nthreads);
    if Pow2(logNelems) % Abs(nthreads) == 0 {
      var j := DivisorOfPow2(Abs(nthreads), logNelems);
    }
    if j: nat :| j <= logNelems && Abs(nthreads) == Pow2(j) {
      Pow2Divides(j, logNelems);
    }
  }

  /** The peer threads that `main` creates: none if the count is negative. */
  function Launch(nthreads: int, per: int): State {
    if nthreads > 0 && per >= 0 then Start(nthreads, per) else Start(0, 0)
  }

  /** The final check of `main`. */
  predicate Correct(gsum: int, nelems: int) { gsum == nelems * (nelems - 1) / 2 }

  lemma ExactDivision(p: int, n: int)
    requires n != 0 && p % n == 0
    ensures p == n * (p / n)
  {
  }

  lemma AcceptedPer(nthreads: int, logNelems: nat)
    requires nthreads != 0 && CheckArguments(nthreads, logNelems).Accepted?
    ensures var per := CheckArguments(nthreads, logNelems).per;
      Pow2(logNelems) == nthreads * per && (nthreads > 0 ==> per >= 1)
    ensures logNelems <= 31
  {
    var p := Pow2(logNelems);
    ExactDivision(p, nthreads);
    if nthreads > 0 {
      MultipleBounds(nthreads, p / nthreads);
    }
  }

  lemma Pow2Of31()
    ensures Pow2(31) == 0x8000_0000
  {
    Pow2Split(8, 7);
    Pow2Split(16, 15);
    assert Pow2(7) == 0x80 && Pow2(8) == 0x100;
    assert Pow2(15) == 0x8000 && Pow2(16) == 2 * Pow2(15);
  }

  lemma MostElements(logNelems: nat)
    requires logNelems <= 31
    ensures 1 <= Pow2(logNelems) <= 0x8000_0000
  {
    Pow2Monotone(logNelems, 31);
    Pow2Of31();
  }

  lemma TotalFits(nelems: int)
    requires 1 <= nelems <= 0x8000_0000
    ensures RangeSum(0, nelems) < 0x2000_0000_0000_0000
  {
    RangeSumClosed(nelems);
    SquareBound(nelems, 0x8000_0000);
  }

  lemma OneElementOnly(k: nat)
    ensures Correct(0, Pow2(k)) <==> k == 0
  {
    if k > 0 {
      assert Pow2(k) == 2 * Pow2(k - 1);
      SquareBound(2, Pow2(k));
    }
  }

  /** A launched program and the total it works towards. */
  lemma LaunchedRun(run: seq<State>, nthreads: int, per: int, nelems: int)
    requires nthreads != 0 && nelems == nthreads * per && nelems >= 1 && (nthreads > 0 ==> per >= 1)
    requires Runs.IsRun(run, (s: State) => s == Launch(nthreads, per), Next)
    ensures nthreads > 0 ==> forall i :: 0 <= i < |run| ==> 0 <= run[i].gsum <= RangeSum(0, nelems)
    ensures nthreads > 0 && Stuck(run[|run| - 1]) ==> Correct(run[|run| - 1].gsum, nelems)
    ensures nthreads < 0 ==> forall i :: 0 <= i < |run| ==> run[i].gsum == 0
  {
    if nthreads > 0 {
      assert Runs.IsRun(run, (s: State) => s == Start(nthreads, per), Next);
      forall i | 0 <= i < |run| ensures 0 <= run[i].gsum <= RangeSum(0, nelems) {
        GsumInRange(run, nthreads, per, nelems, i);
      }
      if Stuck(run[|run| - 1]) {
        NoUpdateIsLost(run, nthreads, per, nelems);
      }
    } else {
      assert Runs.IsRun(run, (s: State) => s == Start(0, 0), Next);
      forall i | 0 <= i < |run| ensures run[i].gsum == 0 {
        GsumInRange(run, 0, 0, 0, i);
      }
    }
  }

  /** With accepted arguments of at most MAXTHREADS threads, the final check succeeds if and only if
      the count is positive or there is one element only; and no thread ever sees a sum that does
      not fit in a 64-bit long. */
  lemma AcceptedArguments(run: seq<State>, nthreads: int, logNelems: nat)
    requires nthreads != 0 && nthreads <= MAXTHREADS && CheckArguments(nthreads, logNelems).Accepted?
    requires Runs.IsRun(run, (s: State) => s == Launch(nthreads, CheckArguments(nthreads, logNelems).per), Next)
    ensures Stuck(run[|run| - 1]) ==>
      (Correct(run[|run| - 1].gsum, Pow2(logNelems)) <==> nthreads >= 1 || logNelems == 0)
    ensures forall i :: 0 <= i < |run| ==> 0 <= run[i].gsum < 0x2000_0000_0000_0000
  {
    var per, nelems := CheckArguments(nthreads, logNelems).per, Pow2(logNelems);
    AcceptedPer(nthreads, logNelems);
    LaunchedRun(run, nthreads, per, nelems);
    MostElements(logNelems);
    TotalFits(nelems);
    OneElementOnly(logNelems);
  }

  /** `psum-mutex -2 2` is accepted, creates no thread, and fails the final check. */
  lemma NegativeCount()
    ensures CheckArguments(-2, 2) == Accepted(-2)
    ensures var run := [Launch(-2, -2)];
      && Runs.IsRun(run, (s: State) => s == Launch(-2, -2), Next)
      && Stuck(run[0]) && run[0].gsum == 0 && !Correct(0, Pow2(2))
  {
    assert Pow2(2) == 4;
    assert 4 % -2 == 0 && 4 / -2 == -2;
  }

  lemma SquareBound(n: int, m: int)
    requires 1 <= n <= m
    ensures n * (n - 1) <= m * (m - 1)
  {
    assert n * (n - 1) <= m * (n - 1) <= m * (m - 1);
  }

  lemma {:induction false} RangeSumNonNegative(lo: int, hi: int)
    requires lo >= 0
    ensures RangeSum(lo, hi) >= 0
    decreases hi - lo
  {
    if lo < hi {
      RangeSumNonNegative(lo + 1, hi);
    }
  }

  ghost predicate NonNegative(s: State) {
    s.gsum >= 0 && forall t :: 0 <= t < |s.threads| ==> s.threads[t].i >= 0
  }

  lemma StartsNonNegative(nthreads: nat, per: nat)
    ensures NonNegative(Start(nthreads, per))
  {
    forall t | 0 <= t < nthreads ensures t * per >= 0 {
    }
  }

  lemma StepKeepsNonNegative(s: State, s': State, total: int)
    requires Inv(s, total) && Next(s, s') && NonNegative(s)
    ensures Inv(s', total) && NonNegative(s')
  {
    var t: nat :| Enabled(s, t) && s' == Step(s, t);
    StepKeepsInv(s, total, t);
    assert ThreadOk(s, s.threads[t]);
  }

  lemma UnaddedNonNegative(s: State, total: int)
    requires Inv(s, total) && NonNegative(s)
    ensures 0 <= s.gsum <= total
  {
    forall t | 0 <= t < |s.threads| ensures Unadded(s.threads[t]) >= 0 {
      var th := s.threads[t];
      RangeSumNonNegative(if th.pc == Stored then th.i + 1 else th.i, th.end);
    }
    SumNonNegative(s.threads, Unadded);
  }

  /** The threads' ranges never start below zero, so gsum never passes its final value. */
  lemma GsumInRange(run: seq<State>, nthreads: nat, per: nat, nelems: nat, i: nat)
    requires Runs.IsRun(run, (s: State) => s == Start(nthreads, per), Next) && i < |run| && nelems == nthreads * per
    ensures 0 <= run[i].gsum <= RangeSum(0, nelems)
  {
    var total := RangeSum(0, nelems);
    var inv := (s: State) => Inv(s, total) && NonNegative(s);
    StartEstablishesInv(nthreads, per);
    StartsNonNegative(nthreads, per);
    forall s, s' | inv(s) && Next(s, s') ensures inv(s') {
      StepKeepsNonNegative(s, s', total);
    }
    Runs.Invariance(run, (s: State) => s == Start(nthreads, per), Next, inv);
    assert inv(run[i]);
    UnaddedNonNegative(run[i], total);
  }

  // ----- The same steps performed in place -----

  /** The global variables of the program and its peer threads. */
  class Program {
    var gsum: int
    var mutex: nat
    const threads: array<Adder>

    ghost function Abstract(): State
      reads this, threads
    {
      State(gsum, mutex, threads[..])
    }

    constructor (nthreads: nat, per: nat)
      ensures Abstract() == Start(nthreads, per)
      ensures fresh(threads)
    {
      gsum, mutex := 0, 1;
      threads := new Adder[nthreads](t => Adder(t * per, t * per + per, Head));
    }

    /** Thread t performs one step of sum_mutex, or stays where it is if it is blocked or done. */
    method Advance(t: nat) returns (ran: bool)
      modifies this, threads
      ensures ran == old(Enabled(Abstract(), t))
      ensures Abstract() == if ran then old(Step(Abstract(), t)) else old(Abstract())
    {
      if t >= threads.Length { return false; }
      var th := threads[t];
      match th.pc {
        case Head =>
          if th.i >= th.end || mutex == 0 { return false; }
          mutex := mutex - 1;
          threads[t] := th.(pc := Locked);
        case Locked =>
          threads[t] := th.(pc := Loaded(gsum));
        case Loaded(v) =>
          gsum := v + th.i;
          threads[t] := th.(pc := Stored);
        case Stored =>
          mutex := mutex + 1;
          threads[t] := th.(pc := Head, i := th.i + 1);
      }
      ran := true;
    }

    /** Under any schedule, once every thread has finished the sum is right. */
    method Run(schedule: seq<nat>, ghost total: int)
      requires Inv(Abstract(), total)
      modifies this, threads
      ensures Inv(Abstract(), total)
      ensures Finished(Abstract()) ==> gsum == total
    {
      for k := 0 to |schedule|
        invariant Inv(Abstract(), total)
      {
        ghost var before := Abstract();
        var ran := Advance(schedule[k]);
        if ran {
          StepKeepsInv(before, total, schedule[k]);
        }
      }
      StuckExactlyWhenFinished(Abstract(), total);
    }
  }
}
