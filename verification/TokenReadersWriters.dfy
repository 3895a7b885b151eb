/** The readers/writers solution with N tokens: a reader takes one token, a writer collects all
    N of them, one P at a time, under a mutex that keeps two writers from collecting together. */
module TokenReadersWriters {
  import opened Sums
  import Runs

  datatype Pc =
    | ROutside          // before P(&sem)
    | Reading           // in the critical section, before V(&sem)
    | WOutside          // before P(&wmutex)
    | Collect(i: nat)   // i tokens collected: before P(&sem), or before V(&wmutex) once i is N
    | Writing           // in the critical section
    | Release(i: nat)   // i tokens given back: before V(&sem), or at the end of the loop once i is N

  datatype State = State(n: int, mutexed: bool, sem: nat, wmutex: nat, threads: seq<Pc>)

  ghost predicate Init(s: State) {
    && s.n >= 1 && s.sem == s.n && s.wmutex == 1
    && forall t :: 0 <= t < |s.threads| ==> s.threads[t] == ROutside || s.threads[t] == WOutside
  }

  predicate Enabled(s: State, t: nat) {
    && t < |s.threads|
    && match s.threads[t]
       case ROutside => s.sem > 0
       case WOutside => s.mutexed ==> s.wmutex > 0
       case Collect(i) => i < s.n ==> s.sem > 0
       case _ => true
  }

  function Step(s: State, t: nat): State
    requires Enabled(s, t)
  {
    var Go := (pc: Pc) => s.(threads := s.threads[t := pc]);
    match s.threads[t]
    case ROutside => Go(Reading).(sem := s.sem - 1)
    case Reading => Go(ROutside).(sem := s.sem + 1)
    case WOutside => Go(Collect(0)).(wmutex := if s.mutexed then s.wmutex - 1 else s.wmutex)
    case Collect(i) =>
      if i < s.n then Go(Collect(i + 1)).(sem := s.sem - 1)
      else Go(Writing).(wmutex := if s.mutexed then s.wmutex + 1 else s.wmutex)
    case Writing => Go(Release(0))
    case Release(i) => if i < s.n then Go(Release(i + 1)).(sem := s.sem + 1) else Go(WOutside)
  }

  ghost predicate Next(s: State, s': State) {
    exists t: nat :: Enabled(s, t) && s' == Step(s, t)
  }

  // ----- Conservation of the tokens -----

  /** The tokens a thread holds. */
  ghost function Held(n: int): Pc -> int {
    (pc: Pc) =>
      match pc
      case Reading => 1
      case Collect(i) => i
      case Writing => n
      case Release(i) => n - i
      case _ => 0
  }

  ghost function Collecting(pc: Pc): int { if pc.Collect? then 1 else 0 }

  ghost predicate ThreadOk(s: State, pc: Pc) {
    match pc
    case Collect(i) => i <= s.n
    case Release(i) => i <= s.n
    case _ => true
  }

  ghost predicate Inv(s: State) {
    && s.n >= 1
    && s.sem + Sum(s.threads, Held(s.n)) == s.n
    && (s.mutexed ==> s.wmutex + Sum(s.threads, Collecting) == 1)
    && forall t :: 0 <= t < |s.threads| ==> ThreadOk(s, s.threads[t])
  }

  lemma InitEstablishesInv(s: State)
    requires Init(s)
    ensures Inv(s)
  {
    SumZero(s.threads, Held(s.n));
    SumZero(s.threads, Collecting);
  }

  lemma StepKeepsInv(s: State, t: nat)
    requires Inv(s) && Enabled(s, t)
    ensures Inv(Step(s, t))
  {
    var s' := Step(s, t);
    assert ThreadOk(s, s.threads[t]);
    SumUpdate(s.threads, t, s'.threads[t], Held(s.n));
    SumUpdate(s.threads, t, s'.threads[t], Collecting);
    forall u | 0 <= u < |s'.threads| ensures ThreadOk(s', s'.threads[u]) {
      assert ThreadOk(s, s.threads[u]);
    }
  }

  // ----- Safety -----

  /** A writer in its critical section holds every token: none is free, no other thread holds
      even one, so in particular no reader reads and no other writer writes. */
  ghost predicate WriterIsAlone(s: State) {
    forall a :: 0 <= a < |s.threads| && s.threads[a] == Writing ==>
      && s.sem == 0
      && forall b :: 0 <= b < |s.threads| && b != a ==> Held(s.n)(s.threads[b]) == 0
  }

  lemma InvImpliesSafe(s: State)
    requires Inv(s)
    ensures WriterIsAlone(s)
  {
    forall t | 0 <= t < |s.threads| ensures Held(s.n)(s.threads[t]) >= 0 {
      assert ThreadOk(s, s.threads[t]);
    }
    forall a | 0 <= a < |s.threads| && s.threads[a] == Writing
      ensures s.sem == 0
      ensures forall b :: 0 <= b < |s.threads| && b != a ==> Held(s.n)(s.threads[b]) == 0
    {
      SumAtLeast(s.threads, a, Held(s.n));
      forall b | 0 <= b < |s.threads| && b != a ensures Held(s.n)(s.threads[b]) == 0 {
        if a < b {
          SumAtLeastTwo(s.threads, a, b, Held(s.n));
        } else {
          SumAtLeastTwo(s.threads, b, a, Held(s.n));
        }
      }
    }
  }

  // ----- Deadlock freedom -----

  ghost predicate Stuck(s: State) {
    forall t: nat :: !Enabled(s, t)
  }

  /** If every thread is outside or collecting, one collector at most holds all the missing
      tokens. */
  lemma OnlyCollectorHolds(s: State, c: nat)
    requires Inv(s) && s.mutexed && c < |s.threads| && s.threads[c].Collect?
    requires forall t :: 0 <= t < |s.threads| ==>
      s.threads[t] == ROutside || s.threads[t] == WOutside || s.threads[t].Collect?
    ensures s.sem == s.n - s.threads[c].i
  {
    var others := s.threads[c := WOutside];
    SumUpdate(s.threads, c, WOutside, Held(s.n));
    forall u | 0 <= u < |others| ensures Held(s.n)(others[u]) == 0 {
      if u < c && others[u].Collect? {
        SumAtLeastTwo(s.threads, u, c, Collecting);
      } else if c < u && others[u].Collect? {
        SumAtLeastTwo(s.threads, c, u, Collecting);
      }
    }
    SumZero(others, Held(s.n));
  }

  /** Some thread can always step, even while one writer gives tokens back and the next one
      collects them. */
  lemma NeverStuck(s: State)
    requires Inv(s) && s.mutexed && |s.threads| > 0
    ensures !Stuck(s)
  {
    if t: nat :| t < |s.threads| && (s.threads[t] == Reading || s.threads[t] == Writing || s.threads[t].Release?) {
      assert Enabled(s, t);
    } else if c: nat :| c < |s.threads| && s.threads[c].Collect? {
      OnlyCollectorHolds(s, c);
      assert Enabled(s, c);
    } else {
      SumZero(s.threads, Held(s.n));
      SumZero(s.threads, Collecting);
      assert s.threads[0] == ROutside || s.threads[0] == WOutside;
      assert Enabled(s, 0);
    }
  }

  lemma RunsKeepInv(run: seq<State>)
    requires Runs.IsRun(run, Init, Next)
    ensures forall i :: 0 <= i < |run| ==> Inv(run[i])
  {
    forall s | Init(s) ensures Inv(s) { InitEstablishesInv(s); }
    forall s, s' | Inv(s) && Next(s, s') ensures Inv(s') {
      var t: nat :| Enabled(s, t) && s' == Step(s, t);
      StepKeepsInv(s, t);
    }
    Runs.Invariance(run, Init, Next, Inv);
  }

  lemma {:induction false} ProgramIsFixed(run: seq<State>, i: nat)
    requires Runs.IsRun(run, Init, Next) && i < |run|
    ensures run[i].mutexed == run[0].mutexed && run[i].n == run[0].n && |run[i].threads| == |run[0].threads|
  {
    if i > 0 {
      assert Next(run[i - 1], run[i]);
      ProgramIsFixed(run, i - 1);
    }
  }

  /** For any number of tokens, readers and writers, in every reachable state: the tokens are
      conserved, a writer writes alone, and - thanks to the mutex - some thread can run. */
  lemma RunsAreSafe(run: seq<State>, i: nat)
    requires Runs.IsRun(run, Init, Next) && i < |run|
    ensures run[i].sem + Sum(run[i].threads, Held(run[i].n)) == run[i].n
    ensures WriterIsAlone(run[i])
    ensures run[0].mutexed && |run[0].threads| > 0 ==> !Stuck(run[i])
  {
    RunsKeepInv(run);
    ProgramIsFixed(run, i);
    InvImpliesSafe(run[i]);
    if run[0].mutexed && |run[0].threads| > 0 {
      NeverStuck(run[i]);
    }
  }

  // ----- Readers do read, together, and writers do write -----

  lemma OneMoreStep(run: seq<State>, t: nat) returns (longer: seq<State>)
    requires Runs.IsRun(run, Init, Next) && Enabled(run[|run| - 1], t)
    ensures Runs.IsRun(longer, Init, Next) && longer == run + [Step(run[|run| - 1], t)]
  {
    var last := run[|run| - 1];
    assert Next(last, Step(last, t));
    longer := run + [Step(last, t)];
  }

  /** k of the readers inside, everyone else outside. */
  function Inside(n: int, mutexed: bool, readers: nat, writers: nat, k: nat): State
    requires k <= n
  {
    State(n, mutexed, n - k, 1,
          seq(readers + writers, t => if t < k then Reading else if t < readers then ROutside else WOutside))
  }

  /** As many readers as there are tokens can be in the critical section at the same time, and no
      more. */
  lemma {:induction false} ReadersShare(n: int, mutexed: bool, readers: nat, writers: nat, k: nat)
    returns (run: seq<State>)
    requires n >= 1 && k <= n && k <= readers
    ensures Runs.IsRun(run, Init, Next)
    ensures run[0] == Inside(n, mutexed, readers, writers, 0)
    ensures run[|run| - 1] == Inside(n, mutexed, readers, writers, k)
    ensures var last := run[|run| - 1]; k == n ==> forall t: nat :: k <= t < readers ==> !Enabled(last, t)
  {
    if k == 0 {
      run := [Inside(n, mutexed, readers, writers, 0)];
    } else {
      run := ReadersShare(n, mutexed, readers, writers, k - 1);
      run := OneMoreStep(run, k - 1);
      assert run[|run| - 1].threads == Inside(n, mutexed, readers, writers, k).threads;
    }
  }

  /** And they can all leave again: the state is then the one the program began with. */
  lemma {:induction false} ReadersLeave(n: int, mutexed: bool, readers: nat, writers: nat, k: nat, m: nat)
    returns (run: seq<State>)
    requires n >= 1 && m <= k <= n && k <= readers
    ensures Runs.IsRun(run, Init, Next) && Inside(n, mutexed, readers, writers, k) in run
    ensures run[0] == Inside(n, mutexed, readers, writers, 0)
    ensures run[|run| - 1] == Inside(n, mutexed, readers, writers, m)
    decreases k - m
  {
    if m == k {
      run := ReadersShare(n, mutexed, readers, writers, k);
    } else {
      run := ReadersLeave(n, mutexed, readers, writers, k, m + 1);
      var i :| 0 <= i < |run| && run[i] == Inside(n, mutexed, readers, writers, k);
      var longer := OneMoreStep(run, m);
      assert longer[i] == run[i];
      assert longer[|longer| - 1].threads == Inside(n, mutexed, readers, writers, m).threads;
      run := longer;
    }
  }

  /** A writer collects the tokens one by one. */
  lemma {:induction false} WriterCollects(start: State, t: nat, k: nat) returns (run: seq<State>)
    requires Init(start) && k <= start.n && t < |start.threads| && start.threads[t] == WOutside
    ensures Runs.IsRun(run, Init, Next) && run[0] == start
    ensures run[|run| - 1] == start.(sem := start.n - k, wmutex := if start.mutexed then 0 else 1,
                                     threads := start.threads[t := Collect(k)])
  {
    if k == 0 {
      run := [start];
    } else {
      run := WriterCollects(start, t, k - 1);
    }
    run := OneMoreStep(run, t);
  }

  /** Then it writes, with all tokens in its hands and the mutex released. */
  lemma WriterWrites(start: State, t: nat) returns (run: seq<State>)
    requires Init(start) && t < |start.threads| && start.threads[t] == WOutside
    ensures Runs.IsRun(run, Init, Next) && run[0] == start
    ensures run[|run| - 1] == start.(sem := 0, threads := start.threads[t := Writing])
  {
    run := WriterCollects(start, t, start.n);
    run := OneMoreStep(run, t);
  }

  /** And then it gives them back: the state is the one the program began with. */
  lemma {:induction false} WriterReleases(start: State, t: nat, k: nat) returns (run: seq<State>)
    requires Init(start) && k <= start.n && t < |start.threads| && start.threads[t] == WOutside
    ensures Runs.IsRun(run, Init, Next) && run[0] == start
    ensures start.(sem := 0, threads := start.threads[t := Writing]) in run
    ensures run[|run| - 1] == start.(sem := k, threads := start.threads[t := Release(k)])
  {
    if k == 0 {
      run := WriterWrites(start, t);
    } else {
      run := WriterReleases(start, t, k - 1);
    }
    var i :| 0 <= i < |run| && run[i] == start.(sem := 0, threads := start.threads[t := Writing]);
    var longer := OneMoreStep(run, t);
    assert longer[i] == run[i];
    run := longer;
  }

  lemma WriterLeaves(start: State, t: nat) returns (run: seq<State>)
    requires Init(start) && t < |start.threads| && start.threads[t] == WOutside
    ensures Runs.IsRun(run, Init, Next) && run[0] == run[|run| - 1] == start
    ensures start.(sem := 0, threads := start.threads[t := Writing]) in run
  {
    var before := WriterReleases(start, t, start.n);
    run := OneMoreStep(before, t);
    var i :| 0 <= i < |before| && before[i] == start.(sem := 0, threads := start.threads[t := Writing]);
    assert run[i] == before[i];
    assert run[|run| - 1].threads == start.threads;
  }

  lemma CollectingLeadsInside(s: State, s': State, t: nat)
    requires Next(s, s') && t < |s.threads|
    ensures |s'.threads| == |s.threads|
    ensures s.threads[t].Collect? ==> s'.threads[t].Collect? || s'.threads[t] == Writing
  {
  }

  lemma {:induction false} CollectingUntilWriting(run: seq<State>, t: nat, i: nat, j: nat)
    requires Runs.IsRun(run, Init, Next) && i <= j < |run| && t < |run[i].threads| && run[i].threads[t].Collect?
    ensures t < |run[j].threads|
    ensures run[j].threads[t].Collect? || exists k :: i < k <= j && t < |run[k].threads| && run[k].threads[t] == Writing
  {
    if i < j {
      CollectingUntilWriting(run, t, i, j - 1);
      assert Next(run[j - 1], run[j]);
      CollectingLeadsInside(run[j - 1], run[j], t);
    }
  }

  /** In every run, a writer that has begun to collect writes before it gives anything back. */
  lemma WritersWrite(run: seq<State>, t: nat, i: nat, j: nat)
    requires Runs.IsRun(run, Init, Next) && i < j < |run| && t < |run[i].threads| && t < |run[j].threads|
    requires run[i].threads[t].Collect? && run[j].threads[t].Release?
    ensures exists k :: i < k < j && t < |run[k].threads| && run[k].threads[t] == Writing
  {
    CollectingUntilWriting(run, t, i, j);
  }

  // ----- Why the mutex is there -----

  /** Without the mutex, exactly the states in which writers have collected all the tokens between
      them, and none has them all, are stuck. */
  lemma StuckExactly(s: State)
    requires Inv(s) && |s.threads| > 0 && !s.mutexed
    ensures Stuck(s) <==>
      s.sem == 0 && forall t :: 0 <= t < |s.threads| ==>
          s.threads[t] == ROutside || (s.threads[t].Collect? && s.threads[t].i < s.n)
  {
    if Stuck(s) {
      forall t | 0 <= t < |s.threads| ensures s.threads[t] == ROutside || (s.threads[t].Collect? &&
          s.threads[t].i < s.n) {
        assert !Enabled(s, t) && ThreadOk(s, s.threads[t]);
      }
      assert !Enabled(s, 0);
    }
  }

  /** With one token there is nothing to share out. */
  lemma OneTokenNeverStuck(s: State)
    requires Inv(s) && |s.threads| > 0 && s.n == 1
    ensures !Stuck(s)
  {
    if s.mutexed {
      NeverStuck(s);
    } else {
      StuckExactly(s);
      if forall t :: 0 <= t < |s.threads| ==> s.threads[t] == ROutside || s.threads[t] == Collect(0) {
        SumZero(s.threads, Held(s.n));
      }
    }
  }

  /** Two writers that begin together: the first has one token, the second k of them. */
  lemma {:induction false} CollectTogether(n: int, k: nat) returns (run: seq<State>)
    requires 0 <= k <= n - 1
    ensures Runs.IsRun(run, Init, Next)
    ensures run[|run| - 1] == State(n, false, n - 1 - k, 1, [Collect(1), Collect(k)])
  {
    if k == 0 {
      var s0 := State(n, false, n, 1, [WOutside, WOutside]);
      var s1 := Step(s0, 0);
      var s2 := Step(s1, 1);
      var s3 := Step(s2, 0);
      assert Next(s0, s1) && Next(s1, s2) && Next(s2, s3);
      run := [s0, s1, s2, s3];
    } else {
      var shorter := CollectTogether(n, k - 1);
      var last := shorter[|shorter| - 1];
      assert Enabled(last, 1) && Next(last, Step(last, 1));
      run := shorter + [Step(last, 1)];
    }
  }

  /** For every number of tokens above one, the program without the mutex has a run of two writers
      that ends with neither able to go on. */
  lemma WithoutMutexWritersDeadlock(n: int) returns (run: seq<State>)
    requires n >= 2
    ensures Runs.IsRun(run, Init, Next) && !run[0].mutexed && run[0].n == n && |run[0].threads| == 2
    ensures Stuck(run[|run| - 1])
  {
    run := CollectTogether(n, n - 1);
    ProgramIsFixed(run, |run| - 1);
    RunsKeepInv(run);
    StuckExactly(run[|run| - 1]);
  }

  // ----- The same steps performed in place -----

  /** The two semaphores, and the threads that run `reader` and `writer`. */
  class Program {
    const n: int
    var sem: nat
    var wmutex: nat
    const threads: array<Pc>

    ghost function Abstract(): State
      reads this, threads
    {
      State(n, true, sem, wmutex, threads[..])
    }

    constructor (n: nat, readers: nat, writers: nat)
      requires n >= 1
      ensures Init(Abstract()) && this.n == n
      ensures threads.Length == readers + writers && fresh(threads)
    {
      this.n := n;
      sem, wmutex := n, 1;
      threads := new Pc[readers + writers](t => if t < readers then ROutside else WOutside);
    }

    /** Thread t performs one step, or stays where it is if it is blocked. */
    method Advance(t: nat) returns (ran: bool)
      modifies this, threads
      ensures ran == old(Enabled(Abstract(), t))
      ensures Abstract() == if ran then old(Step(Abstract(), t)) else old(Abstract())
    {
      if t >= threads.Length { return false; }
      match threads[t] {
        case ROutside =>
          if sem == 0 { return false; }
          sem := sem - 1;
          threads[t] := Reading;
        case Reading =>
          sem := sem + 1;
          threads[t] := ROutside;
        case WOutside =>
          if wmutex == 0 { return false; }
          wmutex := wmutex - 1;
          threads[t] := Collect(0);
        case Collect(i) =>
          if i < n {
            if sem == 0 { return false; }
            sem := sem - 1;
            threads[t] := Collect(i + 1);
          } else {
            wmutex := wmutex + 1;
            threads[t] := Writing;
          }
        case Writing =>
          threads[t] := Release(0);
        case Release(i) =>
          if i < n {
            sem := sem + 1;
            threads[t] := Release(i + 1);
          } else {
            threads[t] := WOutside;
          }
      }
      ran := true;
    }

    /** Any schedule at all keeps writers alone. */
    method Run(schedule: seq<nat>)
      requires Inv(Abstract())
      modifies this, threads
      ensures Inv(Abstract()) && WriterIsAlone(Abstract())
    {
      for k := 0 to |schedule|
        invariant Inv(Abstract())
      {
        ghost var before := Abstract();
        var ran := Advance(schedule[k]);
        if ran {
          StepKeepsInv(before, schedule[k]);
        }
      }
      InvImpliesSafe(Abstract());
    }
  }
}
