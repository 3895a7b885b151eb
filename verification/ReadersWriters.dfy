/** The two readers/writers solutions built on a reader count: the plain one, and the one in
    which writers first pass a gate `wg`.  The reader's code is the same in both. */
module ReadersWriters {
  import opened Sums
  import Runs

  /** Program points of `reader` (R...) and `writer` (W...).  Incrementing and decrementing the
      count are a load and a store. */
  datatype Pc =
    | ROutside           // before P(&mutex) on the way in
    | RLoadIn            // before loading readcnt
    | RStoreIn(v: int)   // before storing v + 1
    | RTestFirst         // before testing readcnt == 1
    | RWaitW             // before P(&w)
    | RUnlockIn          // before V(&mutex)
    | Reading            // in the critical section, before P(&mutex) on the way out
    | RLoadOut           // before loading readcnt
    | RStoreOut(v: int)  // before storing v - 1
    | RTestLast          // before testing readcnt == 0
    | RSignalW           // before V(&w)
    | RUnlockOut         // before V(&mutex)
    | WOutside           // before P(&wg); only with the gate
    | WWaitW             // before P(&w)
    | Writing            // in the critical section, before V(&w)
    | WUngate            // before V(&wg); only with the gate

  datatype State = State(gated: bool, readcnt: int, mutex: nat, w: nat, wg: nat, threads: seq<Pc>)

  ghost predicate Init(s: State) {
    && s.readcnt == 0 && s.mutex == 1 && s.w == 1 && s.wg == 1
    && forall t :: 0 <= t < |s.threads| ==>
         s.threads[t] == ROutside || s.threads[t] == if s.gated then WOutside else WWaitW
  }

  predicate Enabled(s: State, t: nat) {
    && t < |s.threads|
    && match s.threads[t]
       case ROutside | Reading => s.mutex > 0
       case RWaitW | WWaitW => s.w > 0
       case WOutside => s.wg > 0
       case _ => true
  }

  function Step(s: State, t: nat): State
    requires Enabled(s, t)
  {
    var Go := (pc: Pc) => s.(threads := s.threads[t := pc]);
    match s.threads[t]
    case ROutside => Go(RLoadIn).(mutex := s.mutex - 1)
    case RLoadIn => Go(RStoreIn(s.readcnt))
    case RStoreIn(v) => Go(RTestFirst).(readcnt := v + 1)
    case RTestFirst => Go(if s.readcnt == 1 then RWaitW else RUnlockIn)
    case RWaitW => Go(RUnlockIn).(w := s.w - 1)
    case RUnlockIn => Go(Reading).(mutex := s.mutex + 1)
    case Reading => Go(RLoadOut).(mutex := s.mutex - 1)
    case RLoadOut => Go(RStoreOut(s.readcnt))
    case RStoreOut(v) => Go(RTestLast).(readcnt := v - 1)
    case RTestLast => Go(if s.readcnt == 0 then RSignalW else RUnlockOut)
    case RSignalW => Go(RUnlockOut).(w := s.w + 1)
    case RUnlockOut => Go(ROutside).(mutex := s.mutex + 1)
    case WOutside => Go(WWaitW).(wg := s.wg - 1)
    case WWaitW => Go(Writing).(w := s.w - 1)
    case Writing => Go(if s.gated then WUngate else WWaitW).(w := s.w + 1)
    case WUngate => Go(WOutside).(wg := s.wg + 1)
  }

  ghost predicate Next(s: State, s': State) {
    exists t: nat :: Enabled(s, t) && s' == Step(s, t)
  }

  // ----- Counting the threads at each program point -----

  ghost function AtLock(pc: Pc): int {
    match pc
    case ROutside | Reading | WOutside | WWaitW | Writing | WUngate => 0
    case _ => 1
  }

  /** Readers between the increment and the decrement of the count. */
  ghost function AtCounted(pc: Pc): int {
    match pc
    case RTestFirst | RWaitW | RUnlockIn | Reading | RLoadOut | RStoreOut(_) => 1
    case _ => 0
  }

  ghost function AtTestFirst(pc: Pc): int { if pc == RTestFirst then 1 else 0 }
  ghost function AtWaitW(pc: Pc): int { if pc == RWaitW then 1 else 0 }
  ghost function AtTestLast(pc: Pc): int { if pc == RTestLast then 1 else 0 }
  ghost function AtSignalW(pc: Pc): int { if pc == RSignalW then 1 else 0 }
  ghost function AtWriting(pc: Pc): int { if pc == Writing then 1 else 0 }

  /** Writers past the gate. */
  ghost function AtGate(pc: Pc): int { if pc == WWaitW || pc == Writing || pc == WUngate then 1 else 0 }

  datatype Census = Census(lock: int, counted: int, testFirst: int, waitW: int, testLast: int, signalW: int,
      writing: int, gate: int)

  ghost function CensusOf(threads: seq<Pc>): Census {
    Census(Sum(threads, AtLock), Sum(threads, AtCounted), Sum(threads, AtTestFirst), Sum(threads, AtWaitW),
           Sum(threads, AtTestLast), Sum(threads, AtSignalW), Sum(threads, AtWriting), Sum(threads, AtGate))
  }

  ghost function One(pc: Pc): Census {
    Census(AtLock(pc), AtCounted(pc), AtTestFirst(pc), AtWaitW(pc), AtTestLast(pc), AtSignalW(pc), AtWriting(pc),
        AtGate(pc))
  }

  ghost predicate Replaced(before: Census, gone: Census, come: Census, after: Census) {
    && after.lock == before.lock - gone.lock + come.lock
    && after.counted == before.counted - gone.counted + come.counted
    && after.testFirst == before.testFirst - gone.testFirst + come.testFirst
    && after.waitW == before.waitW - gone.waitW + come.waitW
    && after.testLast == before.testLast - gone.testLast + come.testLast
    && after.signalW == before.signalW - gone.signalW + come.signalW
    && after.writing == before.writing - gone.writing + come.writing
    && after.gate == before.gate - gone.gate + come.gate
  }

  /** The readers as a group hold `w` (1) or not (0): they do while the count is positive, except
      that the first one in has not taken it yet, and the last one out has not returned it yet. */
  ghost function GroupHolds(s: State, c: Census): int {
    (if s.readcnt > 0 then 1 else 0)
    - c.waitW - (if s.readcnt == 1 then c.testFirst else 0)
    + c.signalW + (if s.readcnt == 0 then c.testLast else 0)
  }

  ghost predicate Balanced(s: State, c: Census) {
    && s.mutex + c.lock == 1
    && s.readcnt == c.counted
    && s.w + c.writing + GroupHolds(s, c) == 1
    && (s.gated ==> s.wg + c.gate == 1)
  }

  ghost predicate ThreadOk(s: State, pc: Pc) {
    match pc
    case RStoreIn(v) => v == s.readcnt
    case RStoreOut(v) => v == s.readcnt
    case RWaitW => s.readcnt == 1
    case RSignalW => s.readcnt == 0
    case WOutside => s.gated
    case WUngate => s.gated
    case _ => true
  }

  ghost predicate Inv(s: State) {
    && Balanced(s, CensusOf(s.threads))
    && forall t :: 0 <= t < |s.threads| ==> ThreadOk(s, s.threads[t])
  }

  lemma InitEstablishesInv(s: State)
    requires Init(s)
    ensures Inv(s)
  {
    SumZero(s.threads, AtLock);
    SumZero(s.threads, AtCounted);
    SumZero(s.threads, AtTestFirst);
    SumZero(s.threads, AtWaitW);
    SumZero(s.threads, AtTestLast);
    SumZero(s.threads, AtSignalW);
    SumZero(s.threads, AtWriting);
    if s.gated {
      SumZero(s.threads, AtGate);
    }
  }

  lemma CensusAfter(threads: seq<Pc>, t: nat, pc: Pc)
    requires t < |threads|
    ensures Replaced(CensusOf(threads), One(threads[t]), One(pc), CensusOf(threads[t := pc]))
  {
    SumUpdate(threads, t, pc, AtLock);
    SumUpdate(threads, t, pc, AtCounted);
    SumUpdate(threads, t, pc, AtTestFirst);
    SumUpdate(threads, t, pc, AtWaitW);
    SumUpdate(threads, t, pc, AtTestLast);
    SumUpdate(threads, t, pc, AtSignalW);
    SumUpdate(threads, t, pc, AtWriting);
    SumUpdate(threads, t, pc, AtGate);
  }

  lemma LockIsExclusive(s: State, t: nat, u: nat)
    requires s.mutex + Sum(s.threads, AtLock) == 1
    requires t < |s.threads| && u < |s.threads| && t != u && AtLock(s.threads[t]) == 1
    ensures AtLock(s.threads[u]) == 0
  {
    if t < u {
      SumAtLeastTwo(s.threads, t, u, AtLock);
    } else {
      SumAtLeastTwo(s.threads, u, t, AtLock);
    }
  }

  /** The holder of the lock is the only thread at a program point inside it. */
  lemma UnderLock(s: State, t: nat)
    requires s.mutex + Sum(s.threads, AtLock) == 1
    requires t < |s.threads| && AtLock(s.threads[t]) == 1
    ensures var c, own := CensusOf(s.threads), One(s.threads[t]);
      c.testFirst == own.testFirst && c.waitW == own.waitW && c.testLast == own.testLast && c.signalW == own.signalW
  {
    var others := s.threads[t := ROutside];
    CensusAfter(s.threads, t, ROutside);
    forall u | 0 <= u < |others| ensures AtLock(others[u]) == 0 {
      if u != t {
        LockIsExclusive(s, t, u);
      }
    }
    SumZero(others, AtTestFirst);
    SumZero(others, AtWaitW);
    SumZero(others, AtTestLast);
    SumZero(others, AtSignalW);
  }

  /** One step, as arithmetic on the semaphores, the count and the census. */
  ghost predicate StepChanges(s: State, t: nat, before: Census, after: Census) {
    && Enabled(s, t) && ThreadOk(s, s.threads[t]) && Balanced(s, before)
    && before.counted >= 0 && after.counted >= 0
    && (var own := One(s.threads[t]);
        own.lock == 1 ==> before.testFirst == own.testFirst && before.waitW == own.waitW
                          && before.testLast == own.testLast && before.signalW == own.signalW)
    && Replaced(before, One(s.threads[t]), One(Step(s, t).threads[t]), after)
  }

  lemma StepKeepsCounts(s: State, t: nat, before: Census, after: Census)
    requires StepChanges(s, t, before, after)
    ensures var s' := Step(s, t);
      && s'.mutex + after.lock == 1
      && s'.readcnt == after.counted
      && (s'.gated ==> s'.wg + after.gate == 1)
  {
  }

  /** The share of `w` moves between the semaphore, the writer and the group of readers. */
  lemma StepKeepsW(s: State, t: nat, before: Census, after: Census)
    requires StepChanges(s, t, before, after)
    ensures Step(s, t).w + after.writing + GroupHolds(Step(s, t), after) == 1
  {
    StepKeepsCounts(s, t, before, after);
    if AtLock(s.threads[t]) == 0 {
      assert GroupHolds(Step(s, t), after) == GroupHolds(s, before);
    }
  }

  lemma StepKeepsInv(s: State, t: nat)
    requires Inv(s) && Enabled(s, t)
    ensures Inv(Step(s, t))
  {
    var s' := Step(s, t);
    var pc := s'.threads[t];
    assert ThreadOk(s, s.threads[t]);
    assert s'.threads == s.threads[t := pc];
    CensusAfter(s.threads, t, pc);
    if AtLock(s.threads[t]) == 1 {
      UnderLock(s, t);
    }
    SumNonNegative(s.threads, AtCounted);
    SumNonNegative(s'.threads, AtCounted);
    StepKeepsCounts(s, t, CensusOf(s.threads), CensusOf(s'.threads));
    StepKeepsW(s, t, CensusOf(s.threads), CensusOf(s'.threads));
    forall u | 0 <= u < |s'.threads| ensures ThreadOk(s', s'.threads[u]) {
      assert ThreadOk(s, s.threads[u]);
      if u != t && AtLock(s.threads[t]) == 1 {
        LockIsExclusive(s, t, u);
      }
    }
  }

  // ----- Safety -----

  /** A writer in its critical section is alone: no reader is in its own, and no other writer. */
  ghost predicate Exclusive(s: State) {
    forall a, b :: 0 <= a < |s.threads| && 0 <= b < |s.threads| && a != b && s.threads[a] == Writing ==>
      s.threads[b] != Writing && s.threads[b] != Reading
  }

  /** At most one writer waits for `w`, holds it, or has yet to reopen the gate. */
  ghost predicate OneWriterPastGate(s: State) {
    s.gated ==>
      forall a, b :: 0 <= a < b < |s.threads| ==> AtGate(s.threads[a]) + AtGate(s.threads[b]) <= 1
  }

  /** The readers never hold a negative share of `w`. */
  lemma GroupHoldsNonNegative(s: State)
    requires Inv(s)
    ensures GroupHolds(s, CensusOf(s.threads)) >= 0
  {
    SumNonNegative(s.threads, AtCounted);
    SumNonNegative(s.threads, AtSignalW);
    SumNonNegative(s.threads, AtTestLast);
    if s.mutex == 0 {
      var t := SomeNonZero(s.threads, AtLock);
      UnderLock(s, t);
      SumAtLeast(s.threads, t, AtCounted);
    } else {
      NobodyInside(s);
    }
  }

  lemma NobodyInside(s: State)
    requires s.mutex + Sum(s.threads, AtLock) == 1 && s.mutex > 0
    ensures Sum(s.threads, AtLock) == 0
    ensures forall t :: 0 <= t < |s.threads| ==> AtLock(s.threads[t]) == 0
    ensures var c := CensusOf(s.threads); c.testFirst == c.waitW == c.testLast == c.signalW == 0
  {
    SumNonNegative(s.threads, AtLock);
    forall t | 0 <= t < |s.threads| ensures AtLock(s.threads[t]) == 0 {
      SumAtLeast(s.threads, t, AtLock);
    }
    SumZero(s.threads, AtTestFirst);
    SumZero(s.threads, AtWaitW);
    SumZero(s.threads, AtTestLast);
    SumZero(s.threads, AtSignalW);
  }

  /** While some reader reads, the readers hold `w`. */
  lemma ReadingMeansGroupHolds(s: State, b: nat)
    requires Inv(s) && b < |s.threads| && s.threads[b] == Reading
    ensures GroupHolds(s, CensusOf(s.threads)) >= 1
  {
    SumAtLeast(s.threads, b, AtCounted);
    SumNonNegative(s.threads, AtSignalW);
    SumNonNegative(s.threads, AtTestLast);
    if s.mutex == 0 {
      var t := SomeNonZero(s.threads, AtLock);
      assert ThreadOk(s, s.threads[t]);
      UnderLock(s, t);
      if t < b {
        SumAtLeastTwo(s.threads, t, b, AtCounted);
      } else {
        SumAtLeastTwo(s.threads, b, t, AtCounted);
      }
    } else {
      NobodyInside(s);
    }
  }

  lemma InvImpliesSafe(s: State)
    requires Inv(s)
    ensures Exclusive(s) && OneWriterPastGate(s)
  {
    forall a, b | 0 <= a < |s.threads| && 0 <= b < |s.threads| && a != b && s.threads[a] == Writing
      ensures s.threads[b] != Writing && s.threads[b] != Reading
    {
      GroupHoldsNonNegative(s);
      SumAtLeast(s.threads, a, AtWriting);
      if s.threads[b] == Reading {
        ReadingMeansGroupHolds(s, b);
      } else if a < b {
        SumAtLeastTwo(s.threads, a, b, AtWriting);
      } else {
        SumAtLeastTwo(s.threads, b, a, AtWriting);
      }
    }
    if s.gated {
      forall a, b | 0 <= a < b < |s.threads| ensures AtGate(s.threads[a]) + AtGate(s.threads[b]) <= 1 {
        SumAtLeastTwo(s.threads, a, b, AtGate);
      }
    }
  }

  // ----- Deadlock freedom -----

  ghost predicate Stuck(s: State) {
    forall t: nat :: !Enabled(s, t)
  }

  /** The holder of the lock can step, or it waits for `w` and the writer holding `w` can step. */
  lemma LockHolderMeansProgress(s: State, t: nat)
    requires Inv(s) && t < |s.threads| && AtLock(s.threads[t]) == 1
    ensures !Stuck(s)
  {
    assert ThreadOk(s, s.threads[t]);
    if !Enabled(s, t) {
      UnderLock(s, t);
      var a := SomeNonZero(s.threads, AtWriting);
      assert Enabled(s, a);
    } else {
      assert Enabled(s, t);
    }
  }

  lemma NeverStuck(s: State)
    requires Inv(s) && |s.threads| > 0
    ensures !Stuck(s)
  {
    if s.mutex == 0 {
      var t := SomeNonZero(s.threads, AtLock);
      LockHolderMeansProgress(s, t);
    } else {
      NobodyInside(s);
      if t: nat :| t < |s.threads| && s.threads[t] != WOutside && s.threads[t] != WWaitW {
        assert Enabled(s, t);
      } else {
        SumZero(s.threads, AtCounted);
        SumZero(s.threads, AtWriting);
        if t: nat :| t < |s.threads| && s.threads[t] == WWaitW {
          assert Enabled(s, t);
        } else {
          SumZero(s.threads, AtGate);
          assert ThreadOk(s, s.threads[0]);
          assert Enabled(s, 0);
        }
      }
    }
  }

  /** For any number of readers and writers, with or without the gate, in every reachable state:
      writers exclude everyone else, the count is exact, and some thread can run. */
  lemma RunsAreSafe(run: seq<State>, i: nat)
    requires Runs.IsRun(run, Init, Next) && i < |run|
    ensures Exclusive(run[i]) && OneWriterPastGate(run[i])
    ensures run[i].readcnt == Sum(run[i].threads, AtCounted)
    ensures |run[i].threads| > 0 ==> !Stuck(run[i])
  {
    forall s | Init(s) ensures Inv(s) { InitEstablishesInv(s); }
    forall s, s' | Inv(s) && Next(s, s') ensures Inv(s') {
      var t: nat :| Enabled(s, t) && s' == Step(s, t);
      StepKeepsInv(s, t);
    }
    Runs.Invariance(run, Init, Next, Inv);
    InvImpliesSafe(run[i]);
    if |run[i].threads| > 0 {
      NeverStuck(run[i]);
    }
  }

  // ----- Readers do read, together, and writers do write -----

  lemma OneMoreStep(run: seq<State>, t: nat) returns (longer: seq<State>)
    requires Runs.IsRun(run, Init, Next) && Enabled(run[|run| - 1], t)
    ensures Runs.IsRun(longer, Init, Next) && longer == run + [Step(run[|run| - 1], t)]
  {
    var last := run[|run| - 1];
    assert Next(last, Step(last, t));
    longer := run + [Step(last, t)];
  }

  /** With nobody at work inside the lock, a reader outside can enter. */
  lemma ReaderEnters(run: seq<State>, t: nat) returns (longer: seq<State>)
    requires Runs.IsRun(run, Init, Next)
    requires var s := run[|run| - 1];
      t < |s.threads| && s.threads[t] == ROutside && s.mutex == 1 && s.readcnt >= 0 && (s.readcnt == 0 ==> s.w == 1)
    ensures Runs.IsRun(longer, Init, Next) && run <= longer
    ensures var s := run[|run| - 1];
      longer[|longer| - 1] ==
        s.(readcnt := s.readcnt + 1, w := if s.readcnt == 0 then 0 else s.w, threads := s.threads[t := Reading])
  {
    var first := run[|run| - 1].readcnt == 0;
    longer := OneMoreStep(run, t);
    longer := OneMoreStep(longer, t);
    longer := OneMoreStep(longer, t);
    longer := OneMoreStep(longer, t);
    if first {
      longer := OneMoreStep(longer, t);
    }
    longer := OneMoreStep(longer, t);
  }

  /** And a reader inside can leave. */
  lemma ReaderLeaves(run: seq<State>, t: nat) returns (longer: seq<State>)
    requires Runs.IsRun(run, Init, Next)
    requires var s := run[|run| - 1];
      t < |s.threads| && s.threads[t] == Reading && s.mutex == 1 && s.readcnt >= 1
    ensures Runs.IsRun(longer, Init, Next) && run <= longer
    ensures var s := run[|run| - 1];
      longer[|longer| - 1] ==
        s.(readcnt := s.readcnt - 1, w := if s.readcnt == 1 then s.w + 1 else s.w, threads := s.threads[t := ROutside])
  {
    var alone := run[|run| - 1].readcnt == 1;
    longer := OneMoreStep(run, t);
    longer := OneMoreStep(longer, t);
    longer := OneMoreStep(longer, t);
    longer := OneMoreStep(longer, t);
    if alone {
      longer := OneMoreStep(longer, t);
    }
    longer := OneMoreStep(longer, t);
  }

  /** k of n readers inside, everyone else outside. */
  function Inside(gated: bool, n: nat, writers: nat, k: nat): State {
    State(gated, k, 1, if k == 0 then 1 else 0, 1,
          seq(n + writers, t => if t < k then Reading else if t < n then ROutside
              else if gated then WOutside else WWaitW))
  }

  /** With either program, any number of readers can be in the critical section at the same time,
      whatever writers there are. */
  lemma {:induction false} ReadersShare(gated: bool, n: nat, writers: nat, k: nat) returns (run: seq<State>)
    requires k <= n
    ensures Runs.IsRun(run, Init, Next)
    ensures run[0] == Inside(gated, n, writers, 0) && run[|run| - 1] == Inside(gated, n, writers, k)
  {
    if k == 0 {
      run := [Inside(gated, n, writers, 0)];
    } else {
      run := ReadersShare(gated, n, writers, k - 1);
      run := ReaderEnters(run, k - 1);
      assert run[|run| - 1].threads == Inside(gated, n, writers, k).threads;
    }
  }

  /** And they can all leave again: the state is then the one the program began with. */
  lemma {:induction false} ReadersLeave(gated: bool, n: nat, writers: nat, k: nat, m: nat) returns (run: seq<State>)
    requires m <= k <= n
    ensures Runs.IsRun(run, Init, Next) && Inside(gated, n, writers, k) in run
    ensures run[0] == Inside(gated, n, writers, 0) && run[|run| - 1] == Inside(gated, n, writers, m)
    decreases k - m
  {
    if m == k {
      run := ReadersShare(gated, n, writers, k);
    } else {
      run := ReadersLeave(gated, n, writers, k, m + 1);
      var i :| 0 <= i < |run| && run[i] == Inside(gated, n, writers, k);
      var longer := ReaderLeaves(run, m);
      assert longer[i] == run[i];
      assert longer[|longer| - 1].threads == Inside(gated, n, writers, m).threads;
      run := longer;
    }
  }

  /** Any writer can come to write, and then leaves everything as it found it. */
  lemma WriterWrites(gated: bool, readers: nat, writers: nat, t: nat) returns (run: seq<State>, i: nat)
    requires readers <= t < readers + writers
    ensures Runs.IsRun(run, Init, Next) && run[0] == run[|run| - 1] == Inside(gated, readers, writers, 0)
    ensures i < |run| && run[i].threads == run[0].threads[t := Writing]
    ensures run[i].w == 0 && run[i].mutex == 1 && run[i].wg == if gated then 0 else 1
  {
    run := [Inside(gated, readers, writers, 0)];
    if gated {
      run := OneMoreStep(run, t);
    }
    run := OneMoreStep(run, t);
    i := |run| - 1;
    run := OneMoreStep(run, t);
    if gated {
      run := OneMoreStep(run, t);
    }
    assert run[|run| - 1].threads == run[0].threads;
  }

  /** Past P(&mutex) on the way in. */
  ghost predicate Entering(pc: Pc) {
    pc == RLoadIn || pc.RStoreIn? || pc == RTestFirst || pc == RWaitW || pc == RUnlockIn
  }

  lemma EnteringLeadsInside(s: State, s': State, t: nat)
    requires Next(s, s') && t < |s.threads|
    ensures |s'.threads| == |s.threads|
    ensures Entering(s.threads[t]) ==> Entering(s'.threads[t]) || s'.threads[t] == Reading
    ensures s.threads[t] == WWaitW ==> s'.threads[t] == WWaitW || s'.threads[t] == Writing
  {
  }

  /** In every run, a reader that has entered stays on its way until it reads ... */
  lemma {:induction false} EnteringUntilReading(run: seq<State>, t: nat, i: nat, j: nat)
    requires Runs.IsRun(run, Init, Next) && i <= j < |run| && t < |run[i].threads| && Entering(run[i].threads[t])
    ensures t < |run[j].threads|
    ensures Entering(run[j].threads[t]) ||
        exists k :: i < k <= j && t < |run[k].threads| && run[k].threads[t] == Reading
  {
    if i < j {
      EnteringUntilReading(run, t, i, j - 1);
      assert Next(run[j - 1], run[j]);
      EnteringLeadsInside(run[j - 1], run[j], t);
    }
  }

  /** ... so no reader comes to leave without having read. */
  lemma ReadersRead(run: seq<State>, t: nat, i: nat, j: nat)
    requires Runs.IsRun(run, Init, Next) && i < j < |run| && t < |run[i].threads| && t < |run[j].threads|
    requires run[i].threads[t] == RLoadIn && run[j].threads[t] == RLoadOut
    ensures exists k :: i < k < j && t < |run[k].threads| && run[k].threads[t] == Reading
  {
    EnteringUntilReading(run, t, i, j);
  }

  /** A writer that has passed the gate writes before it reopens the gate. */
  lemma {:induction false} WaitingUntilWriting(run: seq<State>, t: nat, i: nat, j: nat)
    requires Runs.IsRun(run, Init, Next) && i <= j < |run| && t < |run[i].threads| && run[i].threads[t] == WWaitW
    ensures t < |run[j].threads|
    ensures run[j].threads[t] == WWaitW ||
        exists k :: i < k <= j && t < |run[k].threads| && run[k].threads[t] == Writing
  {
    if i < j {
      WaitingUntilWriting(run, t, i, j - 1);
      assert Next(run[j - 1], run[j]);
      EnteringLeadsInside(run[j - 1], run[j], t);
    }
  }

  // ----- The same steps performed in place -----

  /** The global variables, and the threads that run `reader` and `writer`. */
  class Program {
    const gated: bool
    var readcnt: int
    var mutex: nat
    var w: nat
    var wg: nat
    const threads: array<Pc>

    ghost function Abstract(): State
      reads this, threads
    {
      State(gated, readcnt, mutex, w, wg, threads[..])
    }

    constructor (gated: bool, readers: nat, writers: nat)
      ensures Init(Abstract()) && this.gated == gated
      ensures threads.Length == readers + writers && fresh(threads)
    {
      this.gated := gated;
      readcnt, mutex, w, wg := 0, 1, 1, 1;
      threads := new Pc[readers + writers](t => if t < readers then ROutside else if gated then WOutside else WWaitW);
    }

    /** Thread t performs one step, or stays where it is if it is blocked. */
    method Advance(t: nat) returns (ran: bool)
      modifies this, threads
      ensures ran == old(Enabled(Abstract(), t))
      ensures Abstract() == if ran then old(Step(Abstract(), t)) else old(Abstract())
    {
      if t >= threads.Length { return false; }
      match threads[t] {
        case ROutside =>
          if mutex == 0 { return false; }
          mutex := mutex - 1;
          threads[t] := RLoadIn;
        case RLoadIn =>
          threads[t] := RStoreIn(readcnt);
        case RStoreIn(v) =>
          readcnt := v + 1;
          threads[t] := RTestFirst;
        case RTestFirst =>
          threads[t] := if readcnt == 1 then RWaitW else RUnlockIn;
        case RWaitW =>
          if w == 0 { return false; }
          w := w - 1;
          threads[t] := RUnlockIn;
        case RUnlockIn =>
          mutex := mutex + 1;
          threads[t] := Reading;
        case Reading =>
          if mutex == 0 { return false; }
          mutex := mutex - 1;
          threads[t] := RLoadOut;
        case RLoadOut =>
          threads[t] := RStoreOut(readcnt);
        case RStoreOut(v) =>
          readcnt := v - 1;
          threads[t] := RTestLast;
        case RTestLast =>
          threads[t] := if readcnt == 0 then RSignalW else RUnlockOut;
        case RSignalW =>
          w := w + 1;
          threads[t] := RUnlockOut;
        case RUnlockOut =>
          mutex := mutex + 1;
          threads[t] := ROutside;
        case WOutside =>
          if wg == 0 { return false; }
          wg := wg - 1;
          threads[t] := WWaitW;
        case WWaitW =>
          if w == 0 { return false; }
          w := w - 1;
          threads[t] := Writing;
        case Writing =>
          w := w + 1;
          threads[t] := if gated then WUngate else WWaitW;
        case WUngate =>
          wg := wg + 1;
          threads[t] := WOutside;
      }
      ran := true;
    }

    /** Any schedule at all keeps readers and writers apart. */
    method Run(schedule: seq<nat>)
      requires Inv(Abstract())
      modifies this, threads
      ensures Inv(Abstract()) && Exclusive(Abstract()) && OneWriterPastGate(Abstract())
    {
      for k := 0 to |schedule|
        invariant Inv(Abstract())
      {
        ghost var before := Abstract();
        var ran := Advance(schedule[k]);
        if ran {
          StepKeepsInv(before, schedule[k]);
        }
      }
      InvImpliesSafe(Abstract());
    }
  }
}
