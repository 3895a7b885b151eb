/** One producer thread and one consumer thread sharing a bounded buffer: the producer inserts
    0, 1, 2, ... and the consumer makes as many removals. */
module ProducerConsumer {
  import opened Sums
  import opened BoundedBuffer
  import Runs

  const NITEMS := 5
  const BUFSIZE := 4

  function Upto(k: nat): seq<int> { seq(k, i => i) }

  function ProducerScript(nitems: nat): seq<Op> { seq(nitems, i => Insert(i)) }

  function ConsumerScript(nitems: nat): seq<Op> { seq(nitems, i => Remove) }

  /** Thread 0 runs `producer`, thread 1 runs `consumer`. */
  ghost predicate Start(s: State, nitems: nat) {
    && Init(s)
    && |s.threads| == 2
    && s.threads[0].todo == ProducerScript(nitems)
    && s.threads[1].todo == ConsumerScript(nitems)
  }

  /** How far the two loops have come: the producer has stored 0, 1, ... in order, and what the
      consumer has received (counting the call it is about to return from) is what was removed. */
  ghost predicate InStep(s: State, nitems: nat) {
    && |s.threads| == 2
    && var p, c := s.threads[0], s.threads[1];
    && |p.todo| <= nitems
    && p.todo == ProducerScript(nitems)[nitems - |p.todo|..]
    && |s.inserted| == nitems - |p.todo| + OwesItem(p)
    && s.inserted == Upto(|s.inserted|)
    && (forall k :: 0 <= k < |c.todo| ==> c.todo[k] == Remove)
    && s.removed == c.got + if Removing(c) && AfterMove(c) then [c.item] else []
  }

  lemma ProducerStep(s: State, nitems: nat)
    requires InBounds(s) && InStep(s, nitems) && Enabled(s, 0) && ThreadOk(s, s.threads[0])
    ensures InStep(Step(s, 0), nitems)
  {
    var p := s.threads[0];
    assert p.todo[0] == Insert(nitems - |p.todo|);
    assert p.todo[1..] == ProducerScript(nitems)[nitems - |p.todo| + 1..];
  }

  lemma ConsumerStep(s: State, nitems: nat)
    requires InBounds(s) && InStep(s, nitems) && Enabled(s, 1) && ThreadOk(s, s.threads[1])
    ensures InStep(Step(s, 1), nitems)
  {
    assert s.threads[1].todo[0] == Remove;
  }

  lemma StartIsBalanced(s: State, nitems: nat)
    requires Start(s, nitems)
    ensures Quota(s, nitems) && InStep(s, nitems)
    ensures Remaining(s) == 14 * nitems
  {
    InitEstablishesInv(s);
    var p, c := s.threads[0], s.threads[1];
    OneRoleCounts(p.todo);
    OneRoleCounts(c.todo);
    assert OneRole(p) && OneRole(c);
    SumOfTwo(s.threads, InsertsLeft);
    SumOfTwo(s.threads, RemovesLeft);
    SumOfTwo(s.threads, Work);
  }

  lemma StepStaysInStep(s: State, nitems: nat, t: nat)
    requires Inv(s) && InStep(s, nitems) && Enabled(s, t)
    ensures InStep(Step(s, t), nitems)
  {
    assert ThreadOk(s, s.threads[t]);
    if t == 0 {
      ProducerStep(s, nitems);
    } else {
      ConsumerStep(s, nitems);
    }
  }

  lemma RunsStayInStep(run: seq<State>, nitems: nat)
    requires Runs.IsRun(run, Init, Next) && Start(run[0], nitems)
    ensures forall i :: 0 <= i < |run| ==> Inv(run[i]) && InStep(run[i], nitems)
  {
    var init := (s: State) => s == run[0];
    var inv := (s: State) => Inv(s) && InStep(s, nitems);
    StartIsBalanced(run[0], nitems);
    forall s, s' | inv(s) && Next(s, s') ensures inv(s') {
      var t: nat :| Enabled(s, t) && InBounds(s) && s' == Step(s, t);
      StepKeepsInv(s, t);
      StepStaysInStep(s, nitems, t);
    }
    Runs.Invariance(run, init, Next, inv);
    forall i | 0 <= i < |run| ensures Inv(run[i]) && InStep(run[i], nitems) {
      assert inv(run[i]);
    }
  }

  lemma PrefixReceived(s: State, nitems: nat)
    requires Inv(s) && InStep(s, nitems)
    ensures var got := s.threads[1].got; |got| <= nitems && got == Upto(|got|)
    ensures s.threads[0].todo == s.threads[1].todo == [] ==> |s.inserted| == nitems
  {
    InvImpliesSafe(s);
    assert ThreadOk(s, s.threads[0]);
    assert s.threads[1].got <= s.removed <= s.inserted;
  }

  lemma FinishedMeansAll(s: State, nitems: nat)
    requires Quota(s, nitems) && InStep(s, nitems)
    requires s.threads[0].todo == s.threads[1].todo == []
    ensures s.threads[1].got == Upto(nitems)
  {
    StuckMeansFinished(s, nitems);
  }

  /** At every moment of every run the consumer has received an initial segment of 0, 1, 2, ... */
  lemma ConsumerReceivesInOrder(run: seq<State>, nitems: nat, i: nat)
    requires Runs.IsRun(run, Init, Next) && Start(run[0], nitems) && i < |run|
    ensures |run[i].threads| == 2
    ensures var got := run[i].threads[1].got; |got| <= nitems && got == Upto(|got|)
  {
    RunsStayInStep(run, nitems);
    PrefixReceived(run[i], nitems);
  }

  /** A run that cannot go on is a run in which both loops have ended, the consumer has received
      exactly 0, 1, ..., nitems - 1 in order, and 14 steps were taken per item.  In particular
      no run deadlocks and none goes on for ever. */
  lemma EveryRunDeliversEverything(run: seq<State>, nitems: nat)
    requires Runs.IsRun(run, Init, Next) && Start(run[0], nitems)
    ensures |run| - 1 <= 14 * nitems && |run[|run| - 1].threads| == 2
    ensures Stuck(run[|run| - 1]) <==> |run| - 1 == 14 * nitems
    ensures Stuck(run[|run| - 1]) ==>
      && run[|run| - 1].threads[0].todo == run[|run| - 1].threads[1].todo == []
      && run[|run| - 1].threads[1].got == Upto(nitems)
  {
    var last := run[|run| - 1];
    StartIsBalanced(run[0], nitems);
    RunsStayInStep(run, nitems);
    assert Inv(last) && InStep(last, nitems);
    RunLength(run, nitems);
    forall t | 0 <= t < 2 ensures Work(last.threads[t]) >= 0 && (Work(last.threads[t]) == 0 <==>
        last.threads[t].todo == []) {
      assert ThreadOk(last, last.threads[t]);
    }
    SumNonNegative(last.threads, Work);
    if Stuck(last) {
      MaximalRunsFinish(run, nitems);
      SumZero(last.threads, Work);
      ConsumerReceivesInOrder(run, nitems, |run| - 1);
    } else {
      var t: nat :| Enabled(last, t);
      SumAtLeast(last.threads, t, Work);
    }
  }

  /** The work left measures the length of any run. */
  lemma RunLength(run: seq<State>, nitems: nat)
    requires Runs.IsRun(run, Init, Next) && Start(run[0], nitems)
    ensures Remaining(run[|run| - 1]) == 14 * nitems - (|run| - 1)
  {
    StartIsBalanced(run[0], nitems);
    var init := (s: State) => s == run[0];
    forall s, s' | Inv(s) && Next(s, s') ensures Inv(s') && Remaining(s') == Remaining(s) - 1 {
      var t: nat :| Enabled(s, t) && InBounds(s) && s' == Step(s, t);
      StepKeepsInv(s, t);
      StepDoesOneUnitOfWork(s, t);
    }
    Runs.Countdown(run, init, Next, Inv, Remaining);
  }

  /** The program itself: NITEMS items through a buffer of BUFSIZE slots, under any schedule. */
  method Program(schedule: seq<nat>) returns (sbuf: Sbuf)
    ensures Inv(sbuf.Abstract()) && InStep(sbuf.Abstract(), NITEMS)
    ensures sbuf.threads.Length == 2 && sbuf.threads[1].got == Upto(|sbuf.threads[1].got|)
    ensures sbuf.threads[0].todo == sbuf.threads[1].todo == [] ==> sbuf.threads[1].got == Upto(NITEMS)
  {
    sbuf := new Sbuf(BUFSIZE, [ProducerScript(NITEMS), ConsumerScript(NITEMS)]);
    StartIsBalanced(sbuf.Abstract(), NITEMS);
    for i := 0 to |schedule|
      invariant fresh(sbuf) && fresh(sbuf.buf) && fresh(sbuf.threads)
      invariant Quota(sbuf.Abstract(), NITEMS) && InStep(sbuf.Abstract(), NITEMS)
    {
      ghost var before := sbuf.Abstract();
      var ran := sbuf.Advance(schedule[i]);
      if ran {
        StepKeepsQuota(before, schedule[i], NITEMS);
        StepStaysInStep(before, NITEMS, schedule[i]);
      }
    }
    PrefixReceived(sbuf.Abstract(), NITEMS);
    if sbuf.threads[0].todo == sbuf.threads[1].todo == [] {
      FinishedMeansAll(sbuf.Abstract(), NITEMS);
    }
  }
}
