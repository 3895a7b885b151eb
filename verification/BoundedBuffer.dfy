/** The shared bounded buffer: sbuf_insert and sbuf_remove executed by any number of threads,
    one memory access or one semaphore operation at a time, in any interleaving. */
module BoundedBuffer {
  import opened Arithmetic
  import opened Sums
  import Runs

  datatype Op = Insert(item: int) | Remove

  /** Where a thread is inside sbuf_insert or sbuf_remove.  The increment of `rear` (or `front`)
      is a load (`Locked` to `Loaded`) and a store (`Loaded` to `Bumped`). */
  datatype Pc =
    | Ready            // before P(&slots) or P(&items)
    | WantLock         // before P(&mutex)
    | Locked           // before loading rear or front
    | Loaded(r: int)   // before storing r + 1
    | Bumped(k: int)   // before accessing buf[k % n]
    | Moved            // before V(&mutex)
    | Unlocked         // before V(&items) or V(&slots)

  /** A thread still has the calls `todo` to make; `todo[0]` is the one in progress.  `item` is
      the local variable of sbuf_remove and `got` lists the values its calls have returned. */
  datatype Thread = Thread(todo: seq<Op>, pc: Pc, item: int, got: seq<int>)

  /** `inserted` and `removed` record the slot writes and slot reads in the order they happen. */
  datatype State = State(
    n: int, buf: seq<int>, front: int, rear: int,
    mutex: nat, slots: nat, items: nat,
    threads: seq<Thread>, inserted: seq<int>, removed: seq<int>)

  ghost predicate Init(s: State) {
    && s.n >= 1 && |s.buf| == s.n
    && s.front == s.rear == 0
    && s.mutex == 1 && s.slots == s.n && s.items == 0
    && s.inserted == [] && s.removed == []
    && forall t :: 0 <= t < |s.threads| ==> s.threads[t].pc == Ready && s.threads[t].got == []
  }

  predicate Enabled(s: State, t: nat) {
    && t < |s.threads|
    && var th := s.threads[t];
    && th.todo != []
    && (th.pc == Ready ==> if th.todo[0].Insert? then s.slots > 0 else s.items > 0)
    && (th.pc == WantLock ==> s.mutex > 0)
  }

  /** The buffer accesses are in bounds: implied by `Inv`. */
  predicate InBounds(s: State) {
    s.n >= 1 && |s.buf| == s.n
  }

  function Step(s: State, t: nat): State
    requires Enabled(s, t) && InBounds(s)
  {
    var th := s.threads[t];
    var ins := th.todo[0].Insert?;
    match th.pc
    case Ready =>
      var s1 := if ins then s.(slots := s.slots - 1) else s.(items := s.items - 1);
      s1.(threads := s.threads[t := th.(pc := WantLock)])
    case WantLock =>
      s.(mutex := s.mutex - 1, threads := s.threads[t := th.(pc := Locked)])
    case Locked =>
      s.(threads := s.threads[t := th.(pc := Loaded(if ins then s.rear else s.front))])
    case Loaded(r) =>
      var s1 := if ins then s.(rear := r + 1) else s.(front := r + 1);
      s1.(threads := s.threads[t := th.(pc := Bumped(r + 1))])
    case Bumped(k) =>
      if ins then
        s.(buf := s.buf[k % s.n := th.todo[0].item], inserted := s.inserted + [th.todo[0].item],
           threads := s.threads[t := th.(pc := Moved)])
      else
        var item := s.buf[k % s.n];
        s.(removed := s.removed + [item], threads := s.threads[t := th.(pc := Moved, item := item)])
    case Moved =>
      s.(mutex := s.mutex + 1, threads := s.threads[t := th.(pc := Unlocked)])
    case Unlocked =>
      if ins then
        s.(items := s.items + 1, threads := s.threads[t := th.(pc := Ready, todo := th.todo[1..])])
      else
        s.(slots := s.slots + 1,
           threads := s.threads[t := th.(pc := Ready, todo := th.todo[1..], got := th.got + [th.item])])
  }

  ghost predicate Next(s: State, s': State) {
    exists t: nat :: Enabled(s, t) && InBounds(s) && s' == Step(s, t)
  }

  // ----- The conservation laws -----

  ghost predicate InLock(th: Thread) {
    th.pc == Locked || th.pc.Loaded? || th.pc.Bumped? || th.pc == Moved
  }

  ghost predicate Inserting(th: Thread) {
    th.todo != [] && th.todo[0].Insert?
  }

  ghost predicate Removing(th: Thread) {
    th.todo != [] && th.todo[0].Remove?
  }

  ghost predicate BeforeMove(th: Thread) {
    th.pc == WantLock || th.pc == Locked || th.pc.Loaded? || th.pc.Bumped?
  }

  ghost predicate AfterMove(th: Thread) {
    th.pc == Moved || th.pc == Unlocked
  }

  ghost function HoldsMutex(th: Thread): int { if InLock(th) then 1 else 0 }
  ghost function HoldsSlot(th: Thread): int { if Inserting(th) && BeforeMove(th) then 1 else 0 }
  ghost function OwesItem(th: Thread): int { if Inserting(th) && AfterMove(th) then 1 else 0 }
  ghost function HoldsItem(th: Thread): int { if Removing(th) && BeforeMove(th) then 1 else 0 }
  ghost function OwesSlot(th: Thread): int { if Removing(th) && AfterMove(th) then 1 else 0 }
  ghost function RearAhead(th: Thread): int { if Inserting(th) && th.pc.Bumped? then 1 else 0 }
  ghost function FrontAhead(th: Thread): int { if Removing(th) && th.pc.Bumped? then 1 else 0 }

  /** The seven sums over all threads, or the seven weights of one thread. */
  datatype Totals = Totals(mutex: int, slot: int, oweItem: int, item: int, oweSlot: int, rear: int, front: int)

  ghost function Weights(th: Thread): Totals {
    Totals(HoldsMutex(th), HoldsSlot(th), OwesItem(th), HoldsItem(th), OwesSlot(th), RearAhead(th), FrontAhead(th))
  }

  ghost function TotalsOf(threads: seq<Thread>): Totals {
    Totals(Sum(threads, HoldsMutex), Sum(threads, HoldsSlot), Sum(threads, OwesItem), Sum(threads, HoldsItem),
           Sum(threads, OwesSlot), Sum(threads, RearAhead), Sum(threads, FrontAhead))
  }

  ghost predicate Balanced(s: State, sum: Totals) {
    && s.mutex + sum.mutex == 1
    && s.slots + sum.slot + sum.oweSlot == s.n - (|s.inserted| - |s.removed|)
    && s.items + sum.item + sum.oweItem == |s.inserted| - |s.removed|
    && s.rear == |s.inserted| + sum.rear
    && s.front == |s.removed| + sum.front
  }

  ghost predicate Conserved(s: State) {
    Balanced(s, TotalsOf(s.threads))
  }

  /** A thread's private view of the cursor is current while it holds the lock. */
  ghost predicate ThreadOk(s: State, th: Thread) {
    && (th.pc != Ready ==> th.todo != [])
    && (th.pc.Loaded? ==> th.pc.r == if Inserting(th) then s.rear else s.front)
    && (th.pc.Bumped? ==> th.pc.k == if Inserting(th) then s.rear else s.front)
    && (Removing(th) && AfterMove(th) ==> th.item in s.removed)
  }

  ghost predicate SlotsHold(s: State)
    requires InBounds(s)
  {
    && |s.removed| <= |s.inserted|
    && s.removed == s.inserted[..|s.removed|]
    && forall j :: |s.removed| <= j < |s.inserted| ==> s.buf[(j + 1) % s.n] == s.inserted[j]
  }

  ghost predicate Inv(s: State) {
    && InBounds(s)
    && Conserved(s)
    && (forall t :: 0 <= t < |s.threads| ==> ThreadOk(s, s.threads[t]))
    && SlotsHold(s)
  }

  lemma InitEstablishesInv(s: State)
    requires Init(s)
    ensures Inv(s)
  {
    SumZero(s.threads, HoldsMutex);
    SumZero(s.threads, HoldsSlot);
    SumZero(s.threads, OwesItem);
    SumZero(s.threads, HoldsItem);
    SumZero(s.threads, OwesSlot);
    SumZero(s.threads, RearAhead);
    SumZero(s.threads, FrontAhead);
  }

  ghost predicate Replaced(before: Totals, gone: Totals, come: Totals, after: Totals) {
    && after.mutex == before.mutex - gone.mutex + come.mutex
    && after.slot == before.slot - gone.slot + come.slot
    && after.oweItem == before.oweItem - gone.oweItem + come.oweItem
    && after.item == before.item - gone.item + come.item
    && after.oweSlot == before.oweSlot - gone.oweSlot + come.oweSlot
    && after.rear == before.rear - gone.rear + come.rear
    && after.front == before.front - gone.front + come.front
  }

  /** A step changes each sum by the change in the stepping thread's weight. */
  lemma TotalsAfter(threads: seq<Thread>, t: nat, th: Thread)
    requires t < |threads|
    ensures Replaced(TotalsOf(threads), Weights(threads[t]), Weights(th), TotalsOf(threads[t := th]))
  {
    SumUpdate(threads, t, th, HoldsMutex);
    SumUpdate(threads, t, th, HoldsSlot);
    SumUpdate(threads, t, th, OwesItem);
    SumUpdate(threads, t, th, HoldsItem);
    SumUpdate(threads, t, th, OwesSlot);
    SumUpdate(threads, t, th, RearAhead);
    SumUpdate(threads, t, th, FrontAhead);
  }

  /** What the sums say about one thread: each thread's weight is bounded by the total. */
  lemma OneThread(s: State, t: nat)
    requires t < |s.threads|
    ensures Sum(s.threads, HoldsMutex) >= HoldsMutex(s.threads[t])
    ensures Sum(s.threads, HoldsSlot) >= HoldsSlot(s.threads[t])
    ensures Sum(s.threads, OwesItem) >= OwesItem(s.threads[t])
    ensures Sum(s.threads, HoldsItem) >= HoldsItem(s.threads[t])
    ensures Sum(s.threads, OwesSlot) >= OwesSlot(s.threads[t])
    ensures Sum(s.threads, RearAhead) >= RearAhead(s.threads[t])
    ensures Sum(s.threads, FrontAhead) >= FrontAhead(s.threads[t])
  {
    SumAtLeast(s.threads, t, HoldsMutex);
    SumAtLeast(s.threads, t, HoldsSlot);
    SumAtLeast(s.threads, t, OwesItem);
    SumAtLeast(s.threads, t, HoldsItem);
    SumAtLeast(s.threads, t, OwesSlot);
    SumAtLeast(s.threads, t, RearAhead);
    SumAtLeast(s.threads, t, FrontAhead);
  }

  /** Mutual exclusion: two different threads are never both between P(&mutex) and V(&mutex). */
  lemma LockIsExclusive(s: State, t: nat, u: nat)
    requires Conserved(s)
    requires t < |s.threads| && u < |s.threads| && t != u
    requires InLock(s.threads[t])
    ensures !InLock(s.threads[u])
  {
    if t < u {
      SumAtLeastTwo(s.threads, t, u, HoldsMutex);
    } else {
      SumAtLeastTwo(s.threads, u, t, HoldsMutex);
    }
  }

  /** While a thread holds the lock, the cursors are ahead only on its account. */
  lemma CursorsUnderLock(s: State, t: nat)
    requires Conserved(s)
    requires t < |s.threads| && InLock(s.threads[t])
    ensures Sum(s.threads, RearAhead) == RearAhead(s.threads[t])
    ensures Sum(s.threads, FrontAhead) == FrontAhead(s.threads[t])
  {
    var idle := s.threads[t].(pc := Ready);
    var others := s.threads[t := idle];
    TotalsAfter(s.threads, t, idle);
    forall u | 0 <= u < |others| ensures RearAhead(others[u]) == 0 && FrontAhead(others[u]) == 0 {
      if u != t {
        LockIsExclusive(s, t, u);
      }
    }
    SumZero(others, RearAhead);
    SumZero(others, FrontAhead);
  }

  /** The slot an inserter is about to write holds no item that is still to be read. */
  lemma NoUnreadSlotOverwritten(s: State, t: nat, j: nat)
    requires Inv(s) && t < |s.threads|
    requires Inserting(s.threads[t]) && s.threads[t].pc.Bumped?
    requires |s.removed| <= j < |s.inserted|
    ensures (j + 1) % s.n != s.threads[t].pc.k % s.n
    ensures s.threads[t].pc.k == |s.inserted| + 1
  {
    CursorsUnderLock(s, t);
    SumNonNegative(s.threads, OwesSlot);
    OneThread(s, t);
    ModuloDistinct(j + 1, |s.inserted| + 1, s.n);
  }

  // ----- Every step keeps the invariant -----

  lemma StepBalances(s: State, t: nat, before: Totals, after: Totals)
    requires InBounds(s) && Enabled(s, t) && ThreadOk(s, s.threads[t])
    requires Balanced(s, before)
    requires InLock(s.threads[t]) ==> before.rear == RearAhead(s.threads[t]) && before.front == FrontAhead(s.threads[t])
    requires Replaced(before, Weights(s.threads[t]), Weights(Step(s, t).threads[t]), after)
    ensures Balanced(Step(s, t), after)
  {
  }

  lemma StepConserves(s: State, t: nat)
    requires Inv(s) && Enabled(s, t)
    ensures Conserved(Step(s, t))
  {
    var th, s' := s.threads[t], Step(s, t);
    assert ThreadOk(s, th);
    assert s'.threads == s.threads[t := s'.threads[t]];
    TotalsAfter(s.threads, t, s'.threads[t]);
    if InLock(th) {
      CursorsUnderLock(s, t);
    }
    StepBalances(s, t, TotalsOf(s.threads), TotalsOf(s'.threads));
  }

  lemma StepKeepsThreads(s: State, t: nat, u: nat)
    requires Inv(s) && Enabled(s, t) && u < |s.threads|
    ensures ThreadOk(Step(s, t), Step(s, t).threads[u])
  {
    var s' := Step(s, t);
    assert ThreadOk(s, s.threads[t]) && ThreadOk(s, s.threads[u]);
    if u != t {
      assert s'.threads[u] == s.threads[u];
      if InLock(s.threads[t]) {
        LockIsExclusive(s, t, u);
      }
    }
  }

  lemma StepKeepsSlots(s: State, t: nat)
    requires Inv(s) && Enabled(s, t)
    ensures SlotsHold(Step(s, t))
  {
    var th := s.threads[t];
    assert ThreadOk(s, th);
    if th.pc.Bumped? {
      var s' := Step(s, t);
      CursorsUnderLock(s, t);
      OneThread(s, t);
      SumNonNegative(s.threads, OwesItem);
      if th.todo[0].Insert? {
        forall j | |s'.removed| <= j < |s'.inserted|
          ensures s'.buf[(j + 1) % s'.n] == s'.inserted[j]
        {
          if j < |s.inserted| {
            NoUnreadSlotOverwritten(s, t, j);
          }
        }
      } else {
        assert s.buf[(|s.removed| + 1) % s.n] == s.inserted[|s.removed|];
      }
    }
  }

  lemma StepKeepsInv(s: State, t: nat)
    requires Inv(s) && Enabled(s, t)
    ensures Inv(Step(s, t))
  {
    StepConserves(s, t);
    StepKeepsSlots(s, t);
    forall u | 0 <= u < |s.threads| ensures ThreadOk(Step(s, t), Step(s, t).threads[u]) {
      StepKeepsThreads(s, t, u);
    }
  }

  // ----- The main results over whole runs -----

  /** Never more than n items, never fewer than none, and strict first-in first-out order. */
  ghost predicate Safe(s: State) {
    && 0 <= s.rear - s.front <= s.n
    && s.removed <= s.inserted
    && |s.inserted| - |s.removed| <= s.n
  }

  lemma InvImpliesSafe(s: State)
    requires Inv(s)
    ensures Safe(s)
  {
    SumNonNegative(s.threads, HoldsSlot);
    SumNonNegative(s.threads, OwesSlot);
    SumNonNegative(s.threads, HoldsItem);
    SumNonNegative(s.threads, OwesItem);
    if Sum(s.threads, RearAhead) != 0 {
      var t := SomeNonZero(s.threads, RearAhead);
      CursorsUnderLock(s, t);
      OneThread(s, t);
    } else if Sum(s.threads, FrontAhead) != 0 {
      var t := SomeNonZero(s.threads, FrontAhead);
      CursorsUnderLock(s, t);
      OneThread(s, t);
    }
  }

  lemma RunsAreSafe(run: seq<State>)
    requires Runs.IsRun(run, Init, Next)
    ensures forall i :: 0 <= i < |run| ==> Inv(run[i]) && Safe(run[i])
  {
    forall s | Init(s) ensures Inv(s) { InitEstablishesInv(s); }
    forall s, s' | Inv(s) && Next(s, s') ensures Inv(s') {
      var t: nat :| Enabled(s, t) && InBounds(s) && s' == Step(s, t);
      StepKeepsInv(s, t);
    }
    Runs.Invariance(run, Init, Next, Inv);
    forall i | 0 <= i < |run| ensures Inv(run[i]) && Safe(run[i]) {
      InvImpliesSafe(run[i]);
    }
  }

  // ----- Progress: when can every thread be blocked? -----

  ghost predicate Stuck(s: State) {
    forall t: nat :: !Enabled(s, t)
  }

  /** A thread in the middle of a call never leaves the system stuck: it can step, or it waits
      for the lock and the holder of the lock can step. */
  lemma BusyThreadMeansProgress(s: State, t: nat)
    requires Inv(s) && t < |s.threads| && s.threads[t].pc != Ready
    ensures !Stuck(s)
  {
    assert ThreadOk(s, s.threads[t]);
    if !Enabled(s, t) {
      var u := SomeNonZero(s.threads, HoldsMutex);
      assert ThreadOk(s, s.threads[u]);
      assert Enabled(s, u);
    }
  }

  ghost predicate AllReady(s: State) {
    forall t :: 0 <= t < |s.threads| ==> s.threads[t].pc == Ready
  }

  lemma ReadyTotals(s: State)
    requires Inv(s) && AllReady(s)
    ensures s.slots == s.n - (|s.inserted| - |s.removed|)
    ensures s.items == |s.inserted| - |s.removed|
    ensures Sum(s.threads, OwesItem) == Sum(s.threads, OwesSlot) == 0
  {
    SumZero(s.threads, HoldsSlot);
    SumZero(s.threads, OwesSlot);
    SumZero(s.threads, HoldsItem);
    SumZero(s.threads, OwesItem);
  }

  /** Exactly when nothing can move: every thread is between calls, and either no call is left,
      or every call about to be made is an insert into a full buffer, or every one is a removal
      from an empty buffer. */
  lemma StuckExactly(s: State)
    requires Inv(s)
    ensures Stuck(s) <==>
      && AllReady(s)
      && ((forall t :: 0 <= t < |s.threads| ==> !Inserting(s.threads[t])) || |s.inserted| - |s.removed| == s.n)
      && ((forall t :: 0 <= t < |s.threads| ==> !Removing(s.threads[t])) || s.inserted == s.removed)
  {
    if !AllReady(s) {
      var t: nat :| t < |s.threads| && s.threads[t].pc != Ready;
      BusyThreadMeansProgress(s, t);
    } else {
      ReadyTotals(s);
      forall t: nat | t < |s.threads|
        ensures Inserting(s.threads[t]) ==> (Enabled(s, t) <==> s.slots > 0)
        ensures Removing(s.threads[t]) ==> (Enabled(s, t) <==> s.items > 0)
      {
      }
    }
  }

  /** A producer blocked on `slots` and a consumer blocked on `items` leave someone to run. */
  lemma BlockedPairMeansProgress(s: State, p: nat, c: nat)
    requires Inv(s) && p < |s.threads| && c < |s.threads|
    requires Inserting(s.threads[p]) && Removing(s.threads[c])
    ensures !Stuck(s)
  {
    StuckExactly(s);
  }

  // ----- Termination -----

  ghost function StepsDone(pc: Pc): int {
    match pc
    case Ready => 0
    case WantLock => 1
    case Locked => 2
    case Loaded(_) => 3
    case Bumped(_) => 4
    case Moved => 5
    case Unlocked => 6
  }

  ghost function Work(th: Thread): int { 7 * |th.todo| - StepsDone(th.pc) }

  ghost function Remaining(s: State): int { Sum(s.threads, Work) }

  lemma StepDoesOneUnitOfWork(s: State, t: nat)
    requires Inv(s) && Enabled(s, t)
    ensures Remaining(Step(s, t)) == Remaining(s) - 1
  {
    assert ThreadOk(s, s.threads[t]);
    SumUpdate(s.threads, t, Step(s, t).threads[t], Work);
  }

  // ----- Balanced producers and consumers always finish -----

  ghost function Inserts(todo: seq<Op>): int {
    if todo == [] then 0 else (if todo[0].Insert? then 1 else 0) + Inserts(todo[1..])
  }

  ghost function Removes(todo: seq<Op>): int {
    |todo| - Inserts(todo)
  }

  ghost function InsertsLeft(th: Thread): int { Inserts(th.todo) - OwesItem(th) }
  ghost function RemovesLeft(th: Thread): int { Removes(th.todo) - OwesSlot(th) }

  /** A thread that only produces or only consumes. */
  ghost predicate OneRole(th: Thread) {
    || (forall k :: 0 <= k < |th.todo| ==> th.todo[k].Insert?)
    || (forall k :: 0 <= k < |th.todo| ==> th.todo[k].Remove?)
  }

  lemma {:induction false} OneRoleCounts(todo: seq<Op>)
    ensures (forall k :: 0 <= k < |todo| ==> todo[k].Insert?) ==> Inserts(todo) == |todo|
    ensures (forall k :: 0 <= k < |todo| ==> todo[k].Remove?) ==> Inserts(todo) == 0
  {
    if todo != [] {
      OneRoleCounts(todo[1..]);
    }
  }

  /** `total` inserts and `total` removals overall, by threads with one role each. */
  ghost predicate Quota(s: State, total: int) {
    && Inv(s)
    && |s.inserted| + Sum(s.threads, InsertsLeft) == total
    && |s.removed| + Sum(s.threads, RemovesLeft) == total
    && forall t :: 0 <= t < |s.threads| ==> OneRole(s.threads[t])
  }

  /** Within one thread, a call counts as still to come until its slot access. */
  lemma ThreadQuota(s: State, t: nat)
    requires InBounds(s) && Enabled(s, t) && ThreadOk(s, s.threads[t]) && OneRole(s.threads[t])
    ensures var th, s' := s.threads[t], Step(s, t); var th' := s'.threads[t];
      && |s'.inserted| + InsertsLeft(th') == |s.inserted| + InsertsLeft(th)
      && |s'.removed| + RemovesLeft(th') == |s.removed| + RemovesLeft(th)
      && OneRole(th')
  {
  }

  lemma StepKeepsQuota(s: State, t: nat, total: int)
    requires Quota(s, total) && Enabled(s, t)
    ensures Quota(Step(s, t), total)
  {
    var s' := Step(s, t);
    assert ThreadOk(s, s.threads[t]) && OneRole(s.threads[t]);
    assert s'.threads == s.threads[t := s'.threads[t]];
    StepKeepsInv(s, t);
    ThreadQuota(s, t);
    SumUpdate(s.threads, t, s'.threads[t], InsertsLeft);
    SumUpdate(s.threads, t, s'.threads[t], RemovesLeft);
  }

  /** With balanced quotas the only stuck states are those in which every call has returned and
      everything inserted has been removed. */
  lemma StuckMeansFinished(s: State, total: int)
    requires Quota(s, total) && Stuck(s)
    ensures forall t :: 0 <= t < |s.threads| ==> s.threads[t].todo == []
    ensures s.removed == s.inserted && |s.inserted| == total
  {
    StuckExactly(s);
    forall t | 0 <= t < |s.threads|
      ensures InsertsLeft(s.threads[t]) == if Inserting(s.threads[t]) then |s.threads[t].todo| else 0
      ensures RemovesLeft(s.threads[t]) == if Removing(s.threads[t]) then |s.threads[t].todo| else 0
    {
      assert OneRole(s.threads[t]);
      OneRoleCounts(s.threads[t].todo);
    }
    SumNonNegative(s.threads, InsertsLeft);
    SumNonNegative(s.threads, RemovesLeft);
    if Sum(s.threads, InsertsLeft) != 0 {
      var p := SomeNonZero(s.threads, InsertsLeft);
      var c := SomeNonZero(s.threads, RemovesLeft);
    } else if Sum(s.threads, RemovesLeft) != 0 {
      var c := SomeNonZero(s.threads, RemovesLeft);
    }
    if t: nat :| t < |s.threads| && s.threads[t].todo != [] {
      SumAtLeast(s.threads, t, InsertsLeft);
      SumAtLeast(s.threads, t, RemovesLeft);
    }
  }

  /** Every run of balanced producers and consumers that cannot be extended has finished every
      call, after exactly seven steps per call, whatever the interleaving. */
  lemma MaximalRunsFinish(run: seq<State>, total: int)
    requires Runs.IsRun(run, Init, Next)
    requires Quota(run[0], total)
    requires Stuck(run[|run| - 1])
    ensures var last := run[|run| - 1];
      && (forall t :: 0 <= t < |last.threads| ==> last.threads[t].todo == [])
      && last.removed == last.inserted
      && |last.inserted| == total
    ensures |run| - 1 == Remaining(run[0])
  {
    var init := (s: State) => s == run[0];
    var quota := (s: State) => Quota(s, total);
    forall s, s' | quota(s) && Next(s, s') ensures quota(s') && Remaining(s') == Remaining(s) - 1 {
      var t: nat :| Enabled(s, t) && InBounds(s) && s' == Step(s, t);
      StepKeepsQuota(s, t, total);
      StepDoesOneUnitOfWork(s, t);
    }
    Runs.Invariance(run, init, Next, quota);
    Runs.Countdown(run, init, Next, quota, Remaining);
    StuckMeansFinished(run[|run| - 1], total);
    SumZero(run[|run| - 1].threads, Work);
  }

  // ----- Exactly-once delivery -----

  /** How often a thread has been handed the value x, counting the call it is about to return from. */
  ghost function Receipts(x: int): Thread -> int {
    (th: Thread) => multiset(th.got)[x] + if Removing(th) && AfterMove(th) && th.item == x then 1 else 0
  }

  ghost predicate DeliveredOnce(s: State, x: int) {
    multiset(s.removed)[x] == Sum(s.threads, Receipts(x))
  }

  lemma ThreadReceipts(s: State, t: nat, x: int)
    requires InBounds(s) && Enabled(s, t) && ThreadOk(s, s.threads[t])
    ensures var s' := Step(s, t);
      multiset(s'.removed)[x] - Receipts(x)(s'.threads[t]) == multiset(s.removed)[x] - Receipts(x)(s.threads[t])
  {
  }

  lemma StepDeliversOnce(s: State, t: nat, x: int)
    requires Inv(s) && Enabled(s, t) && DeliveredOnce(s, x)
    ensures DeliveredOnce(Step(s, t), x)
  {
    var s' := Step(s, t);
    assert ThreadOk(s, s.threads[t]);
    assert s'.threads == s.threads[t := s'.threads[t]];
    ThreadReceipts(s, t, x);
    SumUpdate(s.threads, t, s'.threads[t], Receipts(x));
  }

  /** In every run each removed value is returned by exactly one call of sbuf_remove. */
  lemma RunsDeliverOnce(run: seq<State>, x: int)
    requires Runs.IsRun(run, Init, Next)
    ensures forall i :: 0 <= i < |run| ==> DeliveredOnce(run[i], x)
  {
    var inv := (s: State) => Inv(s) && DeliveredOnce(s, x);
    forall s | Init(s) ensures inv(s) {
      InitEstablishesInv(s);
      SumZero(s.threads, Receipts(x));
    }
    forall s, s' | inv(s) && Next(s, s') ensures inv(s') {
      var t: nat :| Enabled(s, t) && InBounds(s) && s' == Step(s, t);
      StepKeepsInv(s, t);
      StepDeliversOnce(s, t, x);
    }
    Runs.Invariance(run, Init, Next, inv);
    forall i | 0 <= i < |run| ensures DeliveredOnce(run[i], x) {
      assert inv(run[i]);
    }
  }

  // ----- What is handed out is what was put in -----

  /** How many calls Insert(x) a thread has begun or has still to make. */
  ghost function Asked(x: int): Thread -> int {
    (th: Thread) => multiset(th.todo)[Insert(x)]
  }

  /** How many of them have not stored their item yet. */
  ghost function ToStore(x: int): Thread -> int {
    (th: Thread) => Asked(x)(th) - if Inserting(th) && AfterMove(th) && th.todo[0] == Insert(x) then 1 else 0
  }

  /** How often a thread's finished calls have returned x. */
  ghost function Returned(x: int): Thread -> int {
    (th: Thread) => multiset(th.got)[x]
  }

  ghost function Accounted(s: State, x: int): int {
    multiset(s.inserted)[x] + Sum(s.threads, ToStore(x))
  }

  lemma ThreadToStore(s: State, t: nat, x: int)
    requires InBounds(s) && Enabled(s, t) && ThreadOk(s, s.threads[t])
    ensures var s' := Step(s, t);
      multiset(s'.inserted)[x] + ToStore(x)(s'.threads[t]) == multiset(s.inserted)[x] + ToStore(x)(s.threads[t])
  {
    var todo := s.threads[t].todo;
    assert todo == [todo[0]] + todo[1..];
    assert multiset(todo)[Insert(x)] == multiset(todo[1..])[Insert(x)] + if todo[0] == Insert(x) then 1 else 0;
    var th, th' := s.threads[t], Step(s, t).threads[t];
    match th.pc
    case Bumped(k) => assert ToStore(x)(th) == Asked(x)(th) == Asked(x)(th');
    case Unlocked => assert ToStore(x)(th') == Asked(x)(th') == multiset(todo[1..])[Insert(x)];
    case _ =>
      assert Asked(x)(th') == Asked(x)(th);
      assert ToStore(x)(th') == ToStore(x)(th);
  }

  /** Every step stores nothing, or the argument of the call that stores. */
  lemma StepKeepsAccount(s: State, t: nat, x: int)
    requires Inv(s) && Enabled(s, t)
    ensures Accounted(Step(s, t), x) == Accounted(s, x)
  {
    var s' := Step(s, t);
    assert ThreadOk(s, s.threads[t]);
    assert s'.threads == s.threads[t := s'.threads[t]];
    ThreadToStore(s, t, x);
    SumUpdate(s.threads, t, s'.threads[t], ToStore(x));
  }

  /** At every moment of every run of any threads, each value has been stored as often as it was to
      be inserted, less the calls that have still to store it. */
  lemma RunsStoreWhatWasAsked(run: seq<State>, x: int)
    requires Runs.IsRun(run, Init, Next)
    ensures forall i :: 0 <= i < |run| ==> Accounted(run[i], x) == Sum(run[0].threads, Asked(x))
  {
    var total := Sum(run[0].threads, Asked(x));
    var init := (s: State) => s == run[0];
    var inv := (s: State) => Inv(s) && Accounted(s, x) == total;
    InitEstablishesInv(run[0]);
    SumSame(run[0].threads, ToStore(x), Asked(x));
    forall s, s' | inv(s) && Next(s, s') ensures inv(s') {
      var t: nat :| Enabled(s, t) && InBounds(s) && s' == Step(s, t);
      StepKeepsInv(s, t);
      StepKeepsAccount(s, t, x);
    }
    Runs.Invariance(run, init, Next, inv);
    forall i | 0 <= i < |run| ensures Accounted(run[i], x) == total {
      assert inv(run[i]);
    }
  }

  /** When balanced producers and consumers have finished, the calls of sbuf_remove have returned
      every value exactly as often as sbuf_insert was called with it. */
  lemma EverythingIsHandedOver(run: seq<State>, total: int, x: int)
    requires Runs.IsRun(run, Init, Next)
    requires Quota(run[0], total) && Stuck(run[|run| - 1])
    ensures Sum(run[|run| - 1].threads, Returned(x)) == Sum(run[0].threads, Asked(x))
  {
    var last := run[|run| - 1];
    MaximalRunsFinish(run, total);
    RunsStoreWhatWasAsked(run, x);
    RunsDeliverOnce(run, x);
    assert Accounted(last, x) == Sum(run[0].threads, Asked(x)) && DeliveredOnce(last, x);
    SumZero(last.threads, ToStore(x));
    SumSame(last.threads, Receipts(x), Returned(x));
  }

  /** From s to s' the histories have only grown at their ends, and the calls still to make are the
      later ones. */
  ghost predicate Later(s: State, s': State) {
    && s.inserted <= s'.inserted && s.removed <= s'.removed && |s'.threads| == |s.threads|
    && forall t :: 0 <= t < |s.threads| ==> LaterThread(s.threads[t], s'.threads[t])
  }

  ghost predicate LaterThread(th: Thread, th': Thread) {
    th.got <= th'.got && |th'.todo| <= |th.todo| && th'.todo == th.todo[|th.todo| - |th'.todo|..]
  }

  lemma NextIsLater(s: State, s': State)
    requires Next(s, s')
    ensures Later(s, s')
  {
    var t: nat :| Enabled(s, t) && InBounds(s) && s' == Step(s, t);
  }

  lemma LaterThreadStill(a: Thread, b: Thread, c: Thread)
    requires LaterThread(a, b) && LaterThread(b, c)
    ensures LaterThread(a, c)
  {
    assert b.todo[|b.todo| - |c.todo|..] == a.todo[|a.todo| - |b.todo|..][|b.todo| - |c.todo|..];
  }

  lemma LaterStill(a: State, b: State, c: State)
    requires Later(a, b) && Later(b, c)
    ensures Later(a, c)
  {
    forall u | 0 <= u < |a.threads| ensures LaterThread(a.threads[u], c.threads[u]) {
      LaterThreadStill(a.threads[u], b.threads[u], c.threads[u]);
    }
  }

  /** Values are returned, and calls are made, in order. */
  lemma RunsOnlyAppend(run: seq<State>, i: nat, j: nat)
    requires Runs.IsRun(run, Init, Next) && i <= j < |run|
    ensures Later(run[i], run[j])
  {
    forall s, s' | Next(s, s') ensures Later(s, s') {
      NextIsLater(s, s');
    }
    forall a, b, c | Later(a, b) && Later(b, c) ensures Later(a, c) {
      LaterStill(a, b, c);
    }
    Runs.Growth(run, Init, Next, Later, i, j);
  }

  // ----- The same steps performed in place -----

  /** The record sbuf_t, shared by the threads that call sbuf_insert and sbuf_remove on it. */
  class Sbuf {
    const buf: array<int>
    const n: int
    var front: int
    var rear: int
    var mutex: nat
    var slots: nat
    var items: nat
    const threads: array<Thread>
    ghost var inserted: seq<int>
    ghost var removed: seq<int>

    ghost function Abstract(): State
      reads this, buf, threads
    {
      State(n, buf[..], front, rear, mutex, slots, items, threads[..], inserted, removed)
    }

    /** sbuf_init, together with the threads that will use the buffer and the calls they make. */
    constructor (n: int, scripts: seq<seq<Op>>)
      requires n >= 1
      ensures Init(Abstract()) && this.n == n
      ensures threads[..] == seq(|scripts|, i requires 0 <= i < |scripts| => Thread(scripts[i], Ready, 0, []))
      ensures fresh(buf) && fresh(threads)
    {
      this.buf := new int[n](_ => 0);
      this.n := n;
      this.front, this.rear := 0, 0;
      this.mutex, this.slots, this.items := 1, n, 0;
      this.threads := new Thread[|scripts|](i requires 0 <= i < |scripts| => Thread(scripts[i], Ready, 0, []));
      this.inserted, this.removed := [], [];
    }

    /** The scheduler picks thread t: it performs one step, or stays where it is if it is blocked. */
    method Advance(t: nat) returns (ran: bool)
      requires InBounds(Abstract())
      modifies this, buf, threads
      ensures ran == old(Enabled(Abstract(), t))
      ensures Abstract() == if ran then old(Step(Abstract(), t)) else old(Abstract())
    {
      if t >= threads.Length || threads[t].todo == [] {
        return false;
      }
      var th := threads[t];
      var op := th.todo[0];
      match th.pc {
      case Ready =>
        if op.Insert? {
          if slots == 0 { return false; }
          slots := slots - 1;
        } else {
          if items == 0 { return false; }
          items := items - 1;
        }
        threads[t] := th.(pc := WantLock);
      case WantLock =>
        if mutex == 0 { return false; }
        mutex := mutex - 1;
        threads[t] := th.(pc := Locked);
      case Locked =>
        threads[t] := th.(pc := Loaded(if op.Insert? then rear else front));
      case Loaded(r) =>
        if op.Insert? { rear := r + 1; } else { front := r + 1; }
        threads[t] := th.(pc := Bumped(r + 1));
      case Bumped(k) =>
        if op.Insert? {
          buf[k % n] := op.item;
          inserted := inserted + [op.item];
          threads[t] := th.(pc := Moved);
        } else {
          var item := buf[k % n];
          removed := removed + [item];
          threads[t] := th.(pc := Moved, item := item);
        }
      case Moved =>
        mutex := mutex + 1;
        threads[t] := th.(pc := Unlocked);
      case Unlocked =>
        if op.Insert? {
          items := items + 1;
          threads[t] := th.(pc := Ready, todo := th.todo[1..]);
        } else {
          slots := slots + 1;
          threads[t] := th.(pc := Ready, todo := th.todo[1..], got := th.got + [th.item]);
        }
      }
      ran := true;
    }

    /** Any schedule at all keeps the buffer safe. */
    method Run(schedule: seq<nat>)
      requires Inv(Abstract())
      modifies this, buf, threads
      ensures Inv(Abstract()) && Safe(Abstract())
      ensures old(inserted) <= inserted && old(removed) <= removed
      ensures forall x :: Accounted(Abstract(), x) == old(Accounted(Abstract(), x))
    {
      for i := 0 to |schedule|
        invariant Inv(Abstract())
        invariant old(inserted) <= inserted && old(removed) <= removed
        invariant forall x :: Accounted(Abstract(), x) == old(Accounted(Abstract(), x))
      {
        ghost var before := Abstract();
        var ran := Advance(schedule[i]);
        if ran {
          StepKeepsInv(before, schedule[i]);
          forall x ensures Accounted(Step(before, schedule[i]), x) == Accounted(before, x) {
            StepKeepsAccount(before, schedule[i], x);
          }
        }
      }
      InvImpliesSafe(Abstract());
    }
  }
}
