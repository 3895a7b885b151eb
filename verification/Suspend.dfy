/** The loop that forks a child and waits for it with sigsuspend, its two handlers, and the part
    of the kernel they depend on.  Handlers may nest: each delivery blocks its own signal until
    the handler returns. */
module Suspend {
  import opened Signals
  import opened Sums
  import Runs
  import Sets

  /** The statement of `main` that comes next. */
  datatype MainPc =
    | SBlock     // Sigprocmask(SIG_BLOCK, &mask, &prev)
    | SFork      // Fork()
    | SClear     // pid = 0
    | STest      // while (!pid)
    | SSuspend   // Sigsuspend(&prev): not yet called
    | SWaiting   // suspended, with mask prev
    | SRestore   // Sigprocmask(SIG_SETMASK, &prev, NULL)
    | SPrint     // printf

  /** The statement of a handler that comes next; sigint_handler has none but the return. */
  datatype HandlerPc =
    | HReap            // Waitpid(-1, NULL, 0)
    | HStore(p: int)   // pid = p
    | HReturn
    | HError           // Waitpid failed: there was no child

  datatype Frame = Frame(sig: Signal, pc: HandlerPc, saved: set<Signal>)

  /** `suspended` is the mask that sigsuspend restores; `child` records the last child forked. */
  datatype State = State(
    alive: set<int>, zombies: set<int>,
    pending: set<Signal>, blocked: set<Signal>,
    main: MainPc, prev: set<Signal>, suspended: set<Signal>, pid: int, child: int,
    frames: seq<Frame>)

  ghost predicate Init(s: State) {
    && s.alive == s.zombies == {} && s.pending == {} && SIGCHLD !in s.blocked
    && s.main == SBlock && s.frames == []
  }

  function Unreaped(s: State): set<int> { s.alive + s.zombies }

  datatype Choice =
    | RunMain(p: int)      // `p` is what Fork returns
    | RunHandler(p: int)   // `p` is what waitpid returns
    | ChildEnds(p: int)
    | Interrupt            // a SIGINT arrives
    | Deliver(sig: Signal)

  predicate Enabled(s: State, c: Choice) {
    match c
    case RunMain(p) =>
      s.frames == [] && s.main != SWaiting && (s.main == SFork ==> p > 0 && p !in Unreaped(s))
    case RunHandler(p) =>
      && s.frames != []
      && var top := s.frames[|s.frames| - 1].pc;
      && top != HError
      && (top == HReap ==> if s.zombies != {} then p in s.zombies else s.alive == {})
    case ChildEnds(p) => p in s.alive
    case Interrupt => true
    case Deliver(sig) => sig in s.pending && sig !in s.blocked
  }

  function StepMain(s: State, p: int): State {
    match s.main
    case SBlock => s.(main := SFork, prev := s.blocked, blocked := s.blocked + {SIGCHLD})
    case SFork => s.(main := SClear, alive := s.alive + {p}, child := p)
    case SClear => s.(main := STest, pid := 0)
    case STest => s.(main := if s.pid == 0 then SSuspend else SRestore)
    case SSuspend => s.(main := SWaiting, suspended := s.blocked, blocked := s.prev)
    case SWaiting => s
    case SRestore => s.(main := SPrint, blocked := s.prev)
    case SPrint => s.(main := SBlock)
  }

  function StepHandler(s: State, p: int): State
    requires s.frames != []
  {
    var below, top := s.frames[..|s.frames| - 1], s.frames[|s.frames| - 1];
    match top.pc
    case HReap =>
      if s.zombies != {} then
        s.(zombies := s.zombies - {p}, frames := below + [top.(pc := HStore(p))])
      else
        s.(frames := below + [top.(pc := HError)])
    case HStore(q) => s.(pid := q, frames := below + [top.(pc := HReturn)])
    case HReturn => s.(frames := below, blocked := top.saved)
    case HError => s
  }

  function Step(s: State, c: Choice): State
    requires Enabled(s, c)
  {
    match c
    case RunMain(p) => StepMain(s, p)
    case RunHandler(p) => StepHandler(s, p)
    case ChildEnds(p) => s.(alive := s.alive - {p}, zombies := s.zombies + {p}, pending := s.pending + {SIGCHLD})
    case Interrupt => s.(pending := s.pending + {SIGINT})
    case Deliver(sig) =>
      var saved := if s.main == SWaiting then s.suspended else s.blocked;
      s.(pending := s.pending - {sig}, blocked := s.blocked + {sig},
         frames := s.frames + [Frame(sig, if sig == SIGCHLD then HReap else HReturn, saved)],
         main := if s.main == SWaiting then STest else s.main)
  }

  ghost predicate Next(s: State, s': State) {
    exists c :: Enabled(s, c) && s' == Step(s, c)
  }

  // ----- Masks and nested handlers -----

  /** The mask main will have when every handler has returned. */
  function BaseMask(s: State): set<Signal> {
    if s.frames == [] then s.blocked else s.frames[0].saved
  }

  /** Where main keeps SIGCHLD blocked, whatever handlers are at work. */
  ghost predicate Shut(main: MainPc) {
    main == SFork || main == SClear || main == SSuspend || main == SRestore
  }

  /** A running handler's signal stays blocked, also while handlers nested in it return. */
  ghost predicate Nested(s: State) {
    && (forall i :: 0 <= i < |s.frames| ==> s.frames[i].sig in s.blocked)
    && (forall i, j :: 0 <= i < j < |s.frames| ==> s.frames[i].sig in s.frames[j].saved)
    && (forall i, j :: 0 <= i < j < |s.frames| ==> s.frames[i].sig != s.frames[j].sig)
  }

  ghost predicate MainMasks(s: State) {
    && (s.main == SWaiting ==> s.frames == [] && s.blocked == s.prev && SIGCHLD in s.suspended)
    && (Shut(s.main) ==> SIGCHLD in s.blocked && forall i :: 0 <= i < |s.frames| ==> SIGCHLD in s.frames[i].saved)
    && (s.main == STest ==> SIGCHLD in BaseMask(s))
    && (s.main != SBlock && s.main != SPrint ==> SIGCHLD !in s.prev)
    && (s.main == SBlock || s.main == SPrint ==> SIGCHLD !in BaseMask(s))
  }

  lemma StepKeepsNested(s: State, c: Choice)
    requires Nested(s) && MainMasks(s) && Enabled(s, c)
    ensures Nested(Step(s, c))
  {
    match c
    case RunMain(_) =>
    case RunHandler(p) =>
      var s' := Step(s, c);
      assert forall i :: 0 <= i < |s'.frames| ==>
        s'.frames[i].sig == s.frames[i].sig && s'.frames[i].saved == s.frames[i].saved;
    case ChildEnds(_) =>
    case Interrupt =>
    case Deliver(_) =>
  }

  lemma MainStepKeepsMainMasks(s: State, p: int)
    requires Nested(s) && MainMasks(s) && Enabled(s, RunMain(p))
    ensures MainMasks(Step(s, RunMain(p)))
  {
  }

  lemma HandlerStepKeepsMainMasks(s: State, p: int)
    requires Nested(s) && MainMasks(s) && Enabled(s, RunHandler(p))
    ensures MainMasks(Step(s, RunHandler(p)))
  {
    var s', n := Step(s, RunHandler(p)), |s.frames| - 1;
    assert forall i :: 0 <= i < |s'.frames| ==> s'.frames[i].saved == s.frames[i].saved;
    if s.frames[n].pc == HReturn {
      assert |s'.frames| == n && s'.blocked == s.frames[n].saved;
    } else {
      assert |s'.frames| == n + 1 && s'.blocked == s.blocked;
    }
  }

  lemma StepKeepsMainMasks(s: State, c: Choice)
    requires Nested(s) && MainMasks(s) && Enabled(s, c)
    ensures MainMasks(Step(s, c))
  {
    match c
    case RunMain(p) => MainStepKeepsMainMasks(s, p);
    case RunHandler(p) => HandlerStepKeepsMainMasks(s, p);
    case ChildEnds(_) =>
    case Interrupt =>
    case Deliver(_) =>
  }

  // ----- The child of the current iteration -----

  /** The SIGCHLD handler is running and has come to this statement. */
  ghost predicate ReaperAt(s: State, pc: HandlerPc) {
    exists i :: 0 <= i < |s.frames| && s.frames[i].sig == SIGCHLD && s.frames[i].pc == pc
  }

  ghost predicate NoReaper(s: State) {
    forall i :: 0 <= i < |s.frames| ==> s.frames[i].sig != SIGCHLD
  }

  /** The child has yet to be reaped: it is alive, or it has ended and the signal has not been
      acted on. */
  ghost predicate Awaited(s: State) {
    || (s.alive == {s.child} && s.zombies == {} && SIGCHLD !in s.pending && NoReaper(s))
    || (s.alive == {} && s.zombies == {s.child} && SIGCHLD in s.pending && NoReaper(s))
    || (s.alive == {} && s.zombies == {s.child} && SIGCHLD !in s.pending && s.main == STest && ReaperAt(s, HReap))
  }

  ghost predicate Reaped(s: State) {
    s.alive == s.zombies == {} && SIGCHLD !in s.pending
  }

  ghost predicate ChildOk(s: State) {
    match s.main
    case SBlock | SFork | SPrint => Reaped(s) && NoReaper(s)
    case SClear => s.child > 0 && Awaited(s)
    case STest =>
      && s.child > 0
      && if s.pid == 0
         then Awaited(s) || (Reaped(s) && ReaperAt(s, HStore(s.child)))
         else s.pid == s.child && Reaped(s) && (NoReaper(s) || ReaperAt(s, HReturn))
    case SSuspend | SWaiting => s.child > 0 && s.pid == 0 && Awaited(s)
    case SRestore => s.child > 0 && s.pid == s.child && Reaped(s) && NoReaper(s)
  }

  ghost predicate FramesOk(s: State) {
    && s.pending <= {SIGCHLD, SIGINT}
    && forall i :: 0 <= i < |s.frames| ==>
         && (s.frames[i].sig == SIGCHLD || s.frames[i].sig == SIGINT)
         && (s.frames[i].sig == SIGINT ==> s.frames[i].pc == HReturn)
         && s.frames[i].pc != HError
  }

  ghost predicate Inv(s: State) {
    Nested(s) && MainMasks(s) && ChildOk(s) && FramesOk(s)
  }

  /** A running SIGCHLD handler is not disturbed by further frames on top of its own. */
  lemma ReaperStays(s: State, s': State)
    requires s.frames <= s'.frames
    ensures forall pc :: ReaperAt(s, pc) ==> ReaperAt(s', pc)
  {
    forall pc | ReaperAt(s, pc) ensures ReaperAt(s', pc) {
      var i :| 0 <= i < |s.frames| && s.frames[i].sig == SIGCHLD && s.frames[i].pc == pc;
      assert s'.frames[i] == s.frames[i];
    }
  }

  lemma MainStepKeepsChild(s: State, p: int)
    requires Inv(s) && Enabled(s, RunMain(p))
    ensures ChildOk(Step(s, RunMain(p)))
  {
  }

  lemma KernelStepKeepsChild(s: State, c: Choice)
    requires Inv(s) && Enabled(s, c) && (c.ChildEnds? || c.Interrupt? || c.Deliver?)
    ensures ChildOk(Step(s, c))
  {
    var s' := Step(s, c);
    ReaperStays(s, s');
    if c == Deliver(SIGCHLD) {
      assert s'.frames[|s.frames|] == Frame(SIGCHLD, HReap, s'.frames[|s.frames|].saved);
    }
  }

  lemma ReaperBelow(s: State, s': State, below: seq<Frame>, top: Frame)
    requires s.frames == below + [top] && top.sig != SIGCHLD && below <= s'.frames
    ensures forall pc :: ReaperAt(s, pc) ==> ReaperAt(s', pc)
  {
    forall pc | ReaperAt(s, pc) ensures ReaperAt(s', pc) {
      var i :| 0 <= i < |s.frames| && s.frames[i].sig == SIGCHLD && s.frames[i].pc == pc;
      assert s'.frames[i] == s.frames[i];
    }
  }

  lemma ReaperStepKeepsChild(s: State, p: int)
    requires Inv(s) && Enabled(s, RunHandler(p)) && s.frames[|s.frames| - 1].sig == SIGCHLD
    ensures ChildOk(Step(s, RunHandler(p)))
  {
    var s' := Step(s, RunHandler(p));
    var below, top := s.frames[..|s.frames| - 1], s.frames[|s.frames| - 1];
    assert ReaperAt(s, top.pc);
    assert forall i :: 0 <= i < |below| ==> s.frames[i].sig != SIGCHLD;
    if top.pc != HReturn {
      assert s'.frames[|below|].sig == SIGCHLD;
      assert ReaperAt(s', s'.frames[|below|].pc);
    }
  }

  lemma OtherStepKeepsChild(s: State, p: int)
    requires Inv(s) && Enabled(s, RunHandler(p)) && s.frames[|s.frames| - 1].sig != SIGCHLD
    ensures ChildOk(Step(s, RunHandler(p)))
  {
    var below, top := s.frames[..|s.frames| - 1], s.frames[|s.frames| - 1];
    ReaperBelow(s, Step(s, RunHandler(p)), below, top);
  }

  lemma HandlerStepKeepsChild(s: State, p: int)
    requires Inv(s) && Enabled(s, RunHandler(p))
    ensures ChildOk(Step(s, RunHandler(p)))
  {
    if s.frames[|s.frames| - 1].sig == SIGCHLD {
      ReaperStepKeepsChild(s, p);
    } else {
      OtherStepKeepsChild(s, p);
    }
  }

  lemma StepKeepsFrames(s: State, c: Choice)
    requires Inv(s) && Enabled(s, c)
    ensures FramesOk(Step(s, c))
  {
  }

  lemma StepKeepsInv(s: State, c: Choice)
    requires Inv(s) && Enabled(s, c)
    ensures Inv(Step(s, c))
  {
    StepKeepsNested(s, c);
    StepKeepsMainMasks(s, c);
    StepKeepsFrames(s, c);
    match c
    case RunMain(p) => MainStepKeepsChild(s, p);
    case RunHandler(p) => HandlerStepKeepsChild(s, p);
    case _ => KernelStepKeepsChild(s, c);
  }

  // ----- The main results -----

  /** No wake-up is lost while main waits: the child is alive, or it has ended and its signal is
      pending, or the handler is already at work on it. */
  ghost predicate WakeUpComing(s: State) {
    || s.child in s.alive
    || (s.child in s.zombies && (SIGCHLD in s.pending || ReaperAt(s, HReap)))
    || ReaperAt(s, HStore(s.child))
  }

  lemma RunsLoseNoWakeUp(run: seq<State>, i: nat)
    requires Runs.IsRun(run, Init, Next) && i < |run|
    ensures run[i].pid == 0 && (run[i].main == STest || run[i].main == SSuspend || run[i].main == SWaiting) ==>
              WakeUpComing(run[i])
    // The loop ends only when this iteration's child has been reaped, and with its identifier.
    ensures run[i].main == SRestore ==> run[i].pid == run[i].child && Unreaped(run[i]) == {}
    // The handler always finds an ended child and never fails.
    ensures ReaperAt(run[i], HReap) ==> run[i].zombies == {run[i].child}
    ensures !ReaperAt(run[i], HError)
    ensures exists c :: Enabled(run[i], c) && c != Interrupt
  {
    forall s, s' | Inv(s) && Next(s, s') ensures Inv(s') {
      var c :| Enabled(s, c) && s' == Step(s, c);
      StepKeepsInv(s, c);
    }
    Runs.Invariance(run, Init, Next, Inv);
    ReaperFindsChild(run[i]);
    NeverStuck(run[i]);
  }

  lemma ReaperFindsChild(s: State)
    requires Inv(s)
    ensures ReaperAt(s, HReap) ==> s.zombies == {s.child}
  {
    if ReaperAt(s, HReap) {
      var i :| 0 <= i < |s.frames| && s.frames[i].sig == SIGCHLD && s.frames[i].pc == HReap;
      assert forall pc :: ReaperAt(s, pc) ==> pc == HReap by {
        forall pc | ReaperAt(s, pc) ensures pc == HReap {
          var j :| 0 <= j < |s.frames| && s.frames[j].sig == SIGCHLD && s.frames[j].pc == pc;
        }
      }
    }
  }

  /** Something other than an interrupt can always happen. */
  lemma NeverStuck(s: State)
    requires Inv(s)
    ensures exists c :: Enabled(s, c) && c != Interrupt
  {
    if s.frames != [] {
      if s.frames[|s.frames| - 1].pc == HReap {
        assert ReaperAt(s, HReap);
        ReaperFindsChild(s);
        assert Enabled(s, RunHandler(s.child));
      } else {
        assert Enabled(s, RunHandler(0));
      }
    } else if s.main == SWaiting {
      if s.alive == {s.child} {
        assert Enabled(s, ChildEnds(s.child));
      } else {
        assert Enabled(s, Deliver(SIGCHLD));
      }
    } else if s.main == SFork {
      assert Enabled(s, RunMain(1));
    } else {
      assert Enabled(s, RunMain(0));
    }
  }

  // ----- Every mask is put back -----

  /** The mask main has at each of its statements when no handler is at work, if it began with `mask`;
      sigsuspend waits with `mask` itself. */
  function MainMask(mask: set<Signal>, main: MainPc): set<Signal> {
    match main
    case SBlock | SPrint | SWaiting => mask
    case _ => mask + {SIGCHLD}
  }

  /** The mask in which frame j runs. */
  function FrameMask(s: State, j: nat): set<Signal>
    requires j < |s.frames|
  {
    if j + 1 < |s.frames| then s.frames[j + 1].saved else s.blocked
  }

  /** A handler runs with the mask it interrupted and its own signal.  One that ended sigsuspend
      interrupted the mask of sigsuspend, but returns to the one before. */
  ghost predicate FrameMaskOk(s: State, j: nat, mask: set<Signal>)
    requires j < |s.frames|
  {
    || FrameMask(s, j) == s.frames[j].saved + {s.frames[j].sig}
    || (j == 0 && s.main == STest && FrameMask(s, j) == mask + {s.frames[j].sig})
  }

  ghost predicate MasksAre(s: State, mask: set<Signal>) {
    && BaseMask(s) == MainMask(mask, s.main)
    && (s.main != SBlock && s.main != SPrint ==> s.prev == mask)
    && (s.main == SWaiting ==> s.frames == [] && s.suspended == mask + {SIGCHLD})
    && forall j: nat :: j < |s.frames| ==> FrameMaskOk(s, j, mask)
  }

  lemma HandlerKeepsMasksAre(s: State, p: int, mask: set<Signal>)
    requires MasksAre(s, mask) && Enabled(s, RunHandler(p))
    ensures MasksAre(Step(s, RunHandler(p)), mask)
  {
    var s', n := Step(s, RunHandler(p)), |s.frames| - 1;
    assert forall j :: 0 <= j < |s'.frames| ==>
        s'.frames[j].saved == s.frames[j].saved && s'.frames[j].sig == s.frames[j].sig;
    forall j: nat | j < |s'.frames| ensures FrameMaskOk(s', j, mask) {
      assert FrameMaskOk(s, j, mask);
      assert FrameMask(s', j) == FrameMask(s, j);
    }
  }

  lemma DeliverKeepsMasksAre(s: State, sig: Signal, mask: set<Signal>)
    requires MasksAre(s, mask) && Enabled(s, Deliver(sig))
    ensures MasksAre(Step(s, Deliver(sig)), mask)
  {
    var s' := Step(s, Deliver(sig));
    forall j: nat | j < |s'.frames| ensures FrameMaskOk(s', j, mask) {
      if j < |s.frames| {
        assert FrameMaskOk(s, j, mask);
        assert FrameMask(s', j) == FrameMask(s, j);
      }
    }
  }

  lemma SameFrames(s: State, s': State, mask: set<Signal>)
    requires MasksAre(s, mask) && s' == s.(alive := s'.alive, zombies := s'.zombies, pending := s'.pending)
    ensures MasksAre(s', mask)
  {
    forall j: nat | j < |s.frames| ensures FrameMaskOk(s', j, mask) {
      assert FrameMaskOk(s, j, mask) && FrameMask(s', j) == FrameMask(s, j);
    }
  }

  lemma StepKeepsMasksAre(s: State, c: Choice, mask: set<Signal>)
    requires MasksAre(s, mask) && Enabled(s, c)
    ensures MasksAre(Step(s, c), mask)
  {
    match c
    case RunHandler(p) => HandlerKeepsMasksAre(s, p, mask);
    case Deliver(sig) => DeliverKeepsMasksAre(s, sig, mask);
    case RunMain(_) =>
    case ChildEnds(_) => SameFrames(s, Step(s, c), mask);
    case Interrupt => SameFrames(s, Step(s, c), mask);
  }

  /** In every run, at every statement and under any nesting of handlers, the blocked signals are
      those of the initial mask and those that main and the running handlers block; in particular
      every iteration ends with the mask it began with, and sigsuspend waits with exactly that. */
  lemma RunsRestoreMasks(run: seq<State>, i: nat)
    requires Runs.IsRun(run, Init, Next) && i < |run|
    ensures MasksAre(run[i], run[0].blocked)
    ensures run[i].main == SBlock && run[i].frames == [] ==> run[i].blocked == run[0].blocked
    ensures run[i].main == SWaiting ==> run[i].blocked == run[0].blocked
  {
    var mask := run[0].blocked;
    var init := (s: State) => s == run[0];
    var inv := (s: State) => MasksAre(s, mask);
    forall s, s' | inv(s) && Next(s, s') ensures inv(s') {
      var c :| Enabled(s, c) && s' == Step(s, c);
      StepKeepsMasksAre(s, c, mask);
    }
    Runs.Invariance(run, init, Next, inv);
    assert inv(run[i]);
  }

  // ----- Iteration after iteration -----

  lemma OneMoreStep(run: seq<State>, c: Choice) returns (longer: seq<State>)
    requires Runs.IsRun(run, Init, Next) && Enabled(run[|run| - 1], c)
    ensures Runs.IsRun(longer, Init, Next) && longer == run + [Step(run[|run| - 1], c)]
  {
    var last := run[|run| - 1];
    assert Next(last, Step(last, c));
    longer := run + [Step(last, c)];
  }

  ghost predicate Quiet(s: State) {
    s.frames == [] && s.alive == s.zombies == {} && s.pending == {}
  }

  /** main forks the child and goes to sleep. */
  lemma FallsAsleep(run: seq<State>, p: int) returns (longer: seq<State>)
    requires Runs.IsRun(run, Init, Next) && p > 0
    requires var s := run[|run| - 1]; Quiet(s) && s.main == SBlock
    ensures Runs.IsRun(longer, Init, Next) && run <= longer
    ensures var s := run[|run| - 1];
      longer[|longer| - 1] == s.(main := SWaiting, alive := {p}, child := p, pid := 0, prev := s.blocked,
                                 suspended := s.blocked + {SIGCHLD})
  {
    longer := OneMoreStep(run, RunMain(p));
    longer := OneMoreStep(longer, RunMain(p));
    longer := OneMoreStep(longer, RunMain(p));
    longer := OneMoreStep(longer, RunMain(p));
    longer := OneMoreStep(longer, RunMain(p));
  }

  /** The child ends, and its signal wakes main up. */
  lemma WakesUp(run: seq<State>, p: int) returns (longer: seq<State>)
    requires Runs.IsRun(run, Init, Next)
    requires var s := run[|run| - 1];
      && s.main == SWaiting && s.frames == [] && SIGCHLD !in s.blocked
      && s.alive == {p} && s.zombies == {} && s.pending == {}
    ensures Runs.IsRun(longer, Init, Next) && run <= longer
    ensures var s := run[|run| - 1];
      longer[|longer| - 1] == s.(main := STest, alive := {}, zombies := {p}, blocked := s.blocked + {SIGCHLD},
                                 frames := [Frame(SIGCHLD, HReap, s.suspended)])
  {
    longer := OneMoreStep(run, ChildEnds(p));
    longer := OneMoreStep(longer, Deliver(SIGCHLD));
  }

  /** The handler reaps the child and returns. */
  lemma Reaps(run: seq<State>, p: int, saved: set<Signal>) returns (longer: seq<State>)
    requires Runs.IsRun(run, Init, Next)
    requires var s := run[|run| - 1]; s.frames == [Frame(SIGCHLD, HReap, saved)] && s.zombies == {p}
    ensures Runs.IsRun(longer, Init, Next) && run <= longer
    ensures longer[|longer| - 1] == run[|run| - 1].(zombies := {}, pid := p, blocked := saved, frames := [])
  {
    longer := OneMoreStep(run, RunHandler(p));
    assert longer[|longer| - 1].frames == [Frame(SIGCHLD, HStore(p), saved)];
    longer := OneMoreStep(longer, RunHandler(p));
    assert longer[|longer| - 1].frames == [Frame(SIGCHLD, HReturn, saved)];
    longer := OneMoreStep(longer, RunHandler(p));
  }

  /** An undisturbed iteration, from its beginning to the beginning of the next. */
  lemma Iteration(run: seq<State>, p: int) returns (longer: seq<State>)
    requires Runs.IsRun(run, Init, Next) && p > 0
    requires var s := run[|run| - 1]; Quiet(s) && s.main == SBlock && SIGCHLD !in s.blocked
    ensures Runs.IsRun(longer, Init, Next) && run <= longer
    ensures var s := run[|run| - 1];
      longer[|longer| - 1] == s.(child := p, pid := p, prev := s.blocked, suspended := s.blocked + {SIGCHLD})
  {
    longer := FallsAsleep(run, p);
    longer := WakesUp(longer, p);
    longer := Reaps(longer, p, run[|run| - 1].blocked + {SIGCHLD});
    longer := OneMoreStep(longer, RunMain(p));
    longer := OneMoreStep(longer, RunMain(p));
    longer := OneMoreStep(longer, RunMain(p));
  }

  /** So the program can wait for one child after another, and after each `pid` is that child. */
  lemma {:induction false} ManyIterations(mask: set<Signal>, n: nat) returns (run: seq<State>)
    requires SIGCHLD !in mask
    ensures Runs.IsRun(run, Init, Next) && run[0].blocked == mask
    ensures var s := run[|run| - 1]; Quiet(s) && s.main == SBlock && s.blocked == mask && s.child == s.pid == n
  {
    if n == 0 {
      run := [State({}, {}, {}, mask, SBlock, {}, {}, 0, 0, [])];
    } else {
      run := ManyIterations(mask, n - 1);
      run := Iteration(run, n);
    }
  }

  // ----- Each iteration ends -----

  /** Between the fork and the end of the waiting loop. */
  ghost predicate InIteration(s: State) {
    s.main == SFork || s.main == SClear || s.main == STest || s.main == SSuspend || s.main == SWaiting
  }

  ghost function FrameWork(f: Frame): int {
    if f.sig != SIGCHLD then 1 else match f.pc case HReap => 4 case HStore(_) => 3 case HReturn => 2 case HError => 0
  }

  ghost function MainWork(main: MainPc): int {
    match main case SFork => 14 case SClear => 5 case STest => 4 case SSuspend => 3 case SWaiting => 2 case _ => 0
  }

  /** An upper bound on the steps left in the iteration if no further interrupt arrives. */
  ghost function Rank(s: State): int {
    MainWork(s.main)
    + (if s.alive != {} then 8 else if SIGCHLD in s.pending then 7 else 0)
    + (if SIGINT in s.pending then 4 else 0)
    + Sum(s.frames, FrameWork)
  }

  lemma FramePushed(frames: seq<Frame>, f: Frame)
    ensures Sum(frames + [f], FrameWork) == Sum(frames, FrameWork) + FrameWork(f)
  {
    SumSplit(frames, [f], FrameWork);
    SumOfOne(f, FrameWork);
  }

  lemma FramePopped(frames: seq<Frame>, below: seq<Frame>, top: Frame)
    requires frames == below + [top]
    ensures Sum(frames, FrameWork) == Sum(below, FrameWork) + FrameWork(top)
  {
    FramePushed(below, top);
  }

  lemma FewerFrames(s: State, s': State, below: seq<Frame>, top: Frame)
    requires s.frames == below + [top] && s'.frames == below && FrameWork(top) > 0
    requires s'.main == s.main && s'.alive == s.alive && s'.pending == s.pending
    ensures Rank(s') < Rank(s)
  {
    FramePopped(s.frames, below, top);
  }

  lemma LessWorkOnTop(s: State, s': State, below: seq<Frame>, top: Frame, top': Frame)
    requires s.frames == below + [top] && s'.frames == below + [top'] && FrameWork(top') < FrameWork(top)
    requires s'.main == s.main && s'.alive == s.alive && s'.pending == s.pending
    ensures Rank(s') < Rank(s)
  {
    FramePopped(s.frames, below, top);
    FramePopped(s'.frames, below, top');
  }

  /** The innermost handler never fails, and finds a child if it is about to look for one. */
  ghost predicate TopOk(s: State) {
    s.frames != [] ==>
      var top := s.frames[|s.frames| - 1];
      top.pc != HError && (top.pc != HReturn ==> top.sig == SIGCHLD) && (top.pc == HReap ==> s.zombies != {})
  }

  lemma InvTop(s: State)
    requires Inv(s)
    ensures TopOk(s)
  {
    if s.frames != [] && s.frames[|s.frames| - 1].pc == HReap {
      assert ReaperAt(s, HReap);
      ReaperFindsChild(s);
    }
  }

  lemma HandlerLowersRank(s: State, p: int)
    requires TopOk(s) && Enabled(s, RunHandler(p))
    ensures Rank(Step(s, RunHandler(p))) < Rank(s)
  {
    var s' := Step(s, RunHandler(p));
    var below, top := s.frames[..|s.frames| - 1], s.frames[|s.frames| - 1];
    if top.pc == HReturn {
      FewerFrames(s, s', below, top);
    } else {
      LessWorkOnTop(s, s', below, top, s'.frames[|below|]);
    }
  }

  /** Every step but an interrupt brings the end of the iteration nearer; an interrupt puts it off
      by at most four steps. */
  lemma StepLowersRank(s: State, c: Choice)
    requires Inv(s) && Enabled(s, c) && InIteration(s)
    ensures c != Interrupt ==> Rank(Step(s, c)) < Rank(s)
    ensures Rank(Step(s, c)) <= Rank(s) + 4
  {
    var s' := Step(s, c);
    match c
    case RunMain(p) =>
    case RunHandler(p) =>
      InvTop(s);
      HandlerLowersRank(s, p);
    case ChildEnds(p) => assert s'.alive == {};
    case Interrupt =>
    case Deliver(sig) => FramePushed(s.frames, s'.frames[|s.frames|]);
  }

  /** However long it takes, an iteration disturbed by k interrupts has ended after at most
      Rank + 5k steps: the waiting loop cannot go on for ever on its own. */
  lemma {:induction false} IterationEnds(states: seq<State>, choices: seq<Choice>)
    requires |states| == |choices| + 1
    requires Inv(states[0])
    requires forall i :: 0 <= i < |choices| ==>
               InIteration(states[i]) && Enabled(states[i], choices[i]) && states[i + 1] == Step(states[i], choices[i])
    ensures |choices| <= Rank(states[0]) + 5 * Interrupts(choices)
  {
    if choices == [] {
      SumNonNegative(states[0].frames, FrameWork);
    } else {
      StepLowersRank(states[0], choices[0]);
      StepKeepsInv(states[0], choices[0]);
      assert forall i :: 0 <= i < |choices[1..]| ==>
          choices[1..][i] == choices[i + 1] && states[1..][i] == states[i + 1];
      IterationEnds(states[1..], choices[1..]);
    }
  }

  ghost function Interrupts(choices: seq<Choice>): nat {
    if choices == [] then 0 else (if choices[0] == Interrupt then 1 else 0) + Interrupts(choices[1..])
  }

  // ----- The same steps performed in place -----

  /** The process and its kernel state; `pid` is the volatile global variable. */
  class Process {
    var alive: set<int>
    var zombies: set<int>
    var pending: set<Signal>
    var blocked: set<Signal>
    var main: MainPc
    var prev: set<Signal>
    var suspended: set<Signal>
    var pid: int
    ghost var child: int
    var frames: seq<Frame>

    ghost function Abstract(): State
      reads this
    {
      State(alive, zombies, pending, blocked, main, prev, suspended, pid, child, frames)
    }

    constructor (mask: set<Signal>)
      requires SIGCHLD !in mask
      ensures Init(Abstract()) && blocked == mask
    {
      alive, zombies, pending, blocked := {}, {}, {}, mask;
      main, prev, suspended, pid, child, frames := SBlock, {}, {}, 0, 0, [];
    }

    /** main runs its next statement; `p` is what Fork returns. */
    method AdvanceMain(p: int)
      requires Enabled(Abstract(), RunMain(p))
      modifies this
      ensures Abstract() == old(Step(Abstract(), RunMain(p)))
    {
      match main {
        case SBlock =>
          prev, blocked := blocked, blocked + {SIGCHLD};
          main := SFork;
        case SFork =>
          alive, child := alive + {p}, p;
          main := SClear;
        case SClear =>
          pid := 0;
          main := STest;
        case STest =>
          main := if pid == 0 then SSuspend else SRestore;
        case SSuspend =>
          suspended, blocked := blocked, prev;
          main := SWaiting;
        case SWaiting =>
        case SRestore =>
          blocked := prev;
          main := SPrint;
        case SPrint =>
          main := SBlock;
      }
    }

    /** The innermost handler runs its next statement; `p` is what waitpid returns. */
    method AdvanceHandler(p: int)
      requires Enabled(Abstract(), RunHandler(p))
      modifies this
      ensures Abstract() == old(Step(Abstract(), RunHandler(p)))
    {
      var below, top := frames[..|frames| - 1], frames[|frames| - 1];
      match top.pc {
        case HReap =>
          if zombies != {} {
            zombies := zombies - {p};
            frames := below + [top.(pc := HStore(p))];
          } else {
            frames := below + [top.(pc := HError)];
          }
        case HStore(q) =>
          pid := q;
          frames := below + [top.(pc := HReturn)];
        case HReturn =>
          blocked := top.saved;
          frames := below;
        case HError =>
      }
    }

    /** The kernel lets a child end, notes an interrupt, or delivers a signal. */
    method AdvanceKernel(c: Choice)
      requires (c.ChildEnds? || c.Interrupt? || c.Deliver?) && Enabled(Abstract(), c)
      modifies this
      ensures Abstract() == old(Step(Abstract(), c))
    {
      match c {
        case ChildEnds(p) =>
          alive, zombies, pending := alive - {p}, zombies + {p}, pending + {SIGCHLD};
        case Interrupt =>
          pending := pending + {SIGINT};
        case Deliver(sig) =>
          var saved := blocked;
          if main == SWaiting {
            saved := suspended;
            main := STest;
          }
          frames := frames + [Frame(sig, if sig == SIGCHLD then HReap else HReturn, saved)];
          pending, blocked := pending - {sig}, blocked + {sig};
      }
    }

    /** Executes whichever of the choices are possible: the waiting loop never loses its child. */
    method Run(choices: seq<Choice>)
      requires Inv(Abstract())
      modifies this
      ensures Inv(Abstract())
      ensures main == SRestore ==> pid == child && alive == zombies == {}
    {
      for k := 0 to |choices|
        invariant Inv(Abstract())
      {
        var c := choices[k];
        ghost var before := Abstract();
        match c {
          case RunMain(p) =>
            if frames == [] && main != SWaiting && (main == SFork ==> p > 0 && p !in alive + zombies) {
              AdvanceMain(p);
              StepKeepsInv(before, c);
            }
          case RunHandler(p) =>
            if frames != [] && (frames[|frames| - 1].pc == HReap ==>
                p in zombies) && frames[|frames| - 1].pc != HError {
              AdvanceHandler(p);
              StepKeepsInv(before, c);
            }
          case ChildEnds(p) =>
            if p in alive {
              AdvanceKernel(c);
              StepKeepsInv(before, c);
            }
          case Interrupt =>
            AdvanceKernel(c);
            StepKeepsInv(before, c);
          case Deliver(sig) =>
            if sig in pending && sig !in blocked {
              AdvanceKernel(c);
              StepKeepsInv(before, c);
            }
        }
      }
    }
  }
}
