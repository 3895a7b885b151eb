/** The signals a process can block. */
module Signals {
  datatype Signal = SIGCHLD | SIGINT | OtherSignal

  /** sigfillset. */
  const ALL: set<Signal> := {SIGCHLD, SIGINT, OtherSignal}
}

/** A shell-like loop that forks children, and a SIGCHLD handler that reaps them, sharing a job
    list.  `Masked` blocks SIGCHLD around fork and addjob; `Racy` blocks signals only around
    addjob itself.  The kernel keeps one pending bit per signal and may let a child end, or
    deliver a pending unblocked signal, between any two statements. */
module JobControl {
  import opened Signals
  import Runs
  import Sets

  datatype Variant = Masked | Racy

  /** The statement of `main` that comes next. */
  datatype MainPc =
    | MBlock      // Sigprocmask(SIG_BLOCK, &mask_one, &prev_one); Masked only
    | MFork       // Fork()
    | MBlockAll   // Sigprocmask(SIG_BLOCK, &mask_all, ...)
    | MAdd        // addjob(pid)
    | MRestore    // Sigprocmask(SIG_SETMASK, &prev, NULL)

  /** The statement of `handler` that comes next. */
  datatype HandlerPc =
    | HWait       // waitpid(-1, NULL, 0)
    | HBlock      // Sigprocmask(SIG_BLOCK, &mask_all, &prev_all)
    | HDelete     // deletejob(pid)
    | HRestore    // Sigprocmask(SIG_SETMASK, &prev_all, NULL)
    | HReturn     // waitpid has failed with ECHILD

  /** A handler at work: `saved` is the mask its return restores. */
  datatype Frame = Idle | Active(pc: HandlerPc, saved: set<Signal>, prev: set<Signal>, pid: int)

  datatype JobEvent = Forked(pid: int) | Added(pid: int) | Deleted(pid: int)

  /** `log`, `window`, `clean` and `stale` only record history: `window` says whether the handler
      was entered since the last fork before main blocked signals, `clean` that this has never
      happened, and `stale` that addjob was called for a child already reaped. */
  datatype State = State(
    variant: Variant,
    alive: set<int>, zombies: set<int>,
    pending: set<Signal>, blocked: set<Signal>,
    jobs: set<int>,
    main: MainPc, prev: set<Signal>, pid: int,
    handler: Frame,
    log: seq<JobEvent>, window: bool, clean: bool, stale: bool)

  ghost predicate Init(s: State) {
    && s.alive == s.zombies == s.jobs == {} && s.pending == {} && SIGCHLD !in s.blocked
    && s.main == (if s.variant == Masked then MBlock else MFork)
    && s.handler == Idle && s.log == [] && !s.window && s.clean && !s.stale
  }

  function Unreaped(s: State): set<int> { s.alive + s.zombies }

  datatype Choice =
    | RunMain(child: int)     // `child` is what Fork returns
    | RunHandler(child: int)  // `child` is what waitpid returns
    | ChildEnds(child: int)
    | Deliver

  predicate Enabled(s: State, c: Choice) {
    match c
    case RunMain(p) => s.handler == Idle && (s.main == MFork ==> p > 0 && p !in Unreaped(s))
    case RunHandler(p) =>
      && s.handler.Active?
      && (s.handler.pc == HWait ==> if s.zombies != {} then p in s.zombies else s.alive == {})
    case ChildEnds(p) => p in s.alive
    case Deliver => SIGCHLD in s.pending && SIGCHLD !in s.blocked
  }

  function StepMain(s: State, child: int): State {
    match s.main
    case MBlock => s.(main := MFork, prev := s.blocked, blocked := s.blocked + {SIGCHLD})
    case MFork =>
      s.(main := MBlockAll, pid := child, alive := s.alive + {child}, log := s.log + [Forked(child)], window := false)
    case MBlockAll =>
      s.(main := MAdd, prev := if s.variant == Racy then s.blocked else s.prev, blocked := s.blocked + ALL)
    case MAdd =>
      s.(main := MRestore, jobs := s.jobs + {s.pid}, log := s.log + [Added(s.pid)],
         stale := s.stale || s.pid !in Unreaped(s))
    case MRestore => s.(main := if s.variant == Masked then MBlock else MFork, blocked := s.prev)
  }

  function StepHandler(s: State, child: int): State
    requires s.handler.Active?
  {
    var h := s.handler;
    match h.pc
    case HWait =>
      if s.zombies != {} then
        s.(zombies := s.zombies - {child}, handler := h.(pc := HBlock, pid := child))
      else
        s.(handler := h.(pc := HReturn))
    case HBlock => s.(handler := h.(pc := HDelete, prev := s.blocked), blocked := s.blocked + ALL)
    case HDelete => s.(handler := h.(pc := HRestore), jobs := s.jobs - {h.pid}, log := s.log + [Deleted(h.pid)])
    case HRestore => s.(handler := h.(pc := HWait), blocked := h.prev)
    case HReturn => s.(handler := Idle, blocked := h.saved)
  }

  function Step(s: State, c: Choice): State
    requires Enabled(s, c)
  {
    match c
    case RunMain(p) => StepMain(s, p)
    case RunHandler(p) => StepHandler(s, p)
    case ChildEnds(p) => s.(alive := s.alive - {p}, zombies := s.zombies + {p}, pending := s.pending + {SIGCHLD})
    case Deliver =>
      s.(pending := s.pending - {SIGCHLD}, blocked := s.blocked + {SIGCHLD},
         handler := Active(HWait, s.blocked, {}, 0),
         window := s.window || s.main == MBlockAll, clean := s.clean && s.main != MBlockAll)
  }

  ghost predicate Next(s: State, s': State) {
    exists c :: Enabled(s, c) && s' == Step(s, c)
  }

  // ----- Masks -----

  /** Where main leaves SIGCHLD unblocked. */
  ghost predicate Open(s: State) {
    if s.variant == Masked then s.main == MBlock else s.main == MFork || s.main == MBlockAll
  }

  ghost predicate MasksOk(s: State) {
    && (s.variant == Racy ==> s.main != MBlock)
    && (s.handler == Idle ==> (SIGCHLD in s.blocked <==> !Open(s)))
    && (!Open(s) ==> SIGCHLD !in s.prev)
    // The handler interrupts main only where SIGCHLD is open, and is itself never interrupted.
    && (s.handler.Active? ==>
          && Open(s) && SIGCHLD in s.blocked && SIGCHLD !in s.handler.saved
          && (s.handler.pc == HDelete || s.handler.pc == HRestore ==> SIGCHLD in s.handler.prev))
    && s.alive !! s.zombies
  }

  lemma StepKeepsMasks(s: State, c: Choice)
    requires MasksOk(s) && Enabled(s, c)
    ensures MasksOk(Step(s, c))
  {
  }

  // ----- The window between fork and addjob -----

  /** The handler returns only once every child has been reaped, so a delivery between fork and
      addjob leaves the new child reaped before it is listed. */
  ghost predicate WindowOk(s: State) {
    && (s.variant == Masked ==> s.clean && !s.window)
    && (s.window ==> !s.clean)
    && (s.handler.Active? && s.handler.pc == HReturn ==> Unreaped(s) == {})
    && (s.main == MBlockAll || s.main == MAdd || s.main == MRestore ==>
          && (!s.window ==> s.pid in Unreaped(s))
          && (s.window && s.handler == Idle ==> Unreaped(s) == {}))
    && (s.main == MBlockAll && s.handler.Active? ==> s.window)
    && (s.stale ==> !s.clean)
    && (!s.clean ==> s.stale || (s.window && (s.main == MBlockAll || s.main == MAdd)))
  }

  lemma StepKeepsWindow(s: State, c: Choice)
    requires MasksOk(s) && WindowOk(s) && Enabled(s, c)
    ensures WindowOk(Step(s, c))
  {
  }

  // ----- The job list -----

  /** The job list is the set of unreaped children, except for the child main has just forked and
      the child the handler has just reaped. */
  ghost predicate JobsOk(s: State) {
    && (s.main == MBlockAll || s.main == MAdd ==>
          s.handler == Idle && s.pid !in s.jobs && s.jobs + {s.pid} == Unreaped(s))
    && (s.main != MBlockAll && s.main != MAdd ==>
          if s.handler.Active? && (s.handler.pc == HBlock || s.handler.pc == HDelete)
          then s.handler.pid !in Unreaped(s) && s.jobs == Unreaped(s) + {s.handler.pid}
          else s.jobs == Unreaped(s))
  }

  /** What the last event about child p was: 0 for none or deleted, 1 for forked, 2 for added. */
  ghost function Phase(log: seq<JobEvent>, p: int): int {
    if log == [] then 0
    else
      var e := log[|log| - 1];
      if e.pid != p then Phase(log[..|log| - 1], p)
      else match e case Forked(_) => 1 case Added(_) => 2 case Deleted(_) => 0
  }

  /** Each child goes through fork, addjob and deletejob in this order, each exactly once per
      fork, even if the kernel reuses its identifier later. */
  ghost predicate InOrder(log: seq<JobEvent>) {
    forall i :: 0 <= i < |log| ==>
      Phase(log[..i], log[i].pid) == match log[i] case Forked(_) => 0 case Added(_) => 1 case Deleted(_) => 2
  }

  ghost predicate LogOk(s: State) {
    && InOrder(s.log)
    && forall p :: PhaseOk(s, p)
  }

  ghost predicate PhaseOk(s: State, p: int) {
    Phase(s.log, p) ==
      if p in s.jobs then 2 else if (s.main == MBlockAll || s.main == MAdd) && p == s.pid then 1 else 0
  }

  lemma PhaseAfter(log: seq<JobEvent>, e: JobEvent, p: int)
    ensures Phase(log + [e], p) ==
              if p != e.pid then Phase(log, p) else match e case Forked(_) => 1 case Added(_) => 2 case Deleted(_) => 0
  {
    assert (log + [e])[..|log|] == log;
  }

  lemma InOrderAfter(log: seq<JobEvent>, e: JobEvent)
    requires InOrder(log)
    requires Phase(log, e.pid) == match e case Forked(_) => 0 case Added(_) => 1 case Deleted(_) => 2
    ensures InOrder(log + [e])
  {
    var log' := log + [e];
    forall i | 0 <= i < |log'| ensures log'[..i] == if i < |log| then log[..i] else log {
    }
  }

  lemma StepKeepsJobs(s: State, c: Choice)
    requires MasksOk(s) && WindowOk(s) && JobsOk(s) && Enabled(s, c)
    requires Step(s, c).clean
    ensures JobsOk(Step(s, c))
  {
    var s' := Step(s, c);
    match c
    case RunMain(p) => assert Unreaped(s') == if s.main == MFork then Unreaped(s) + {p} else Unreaped(s);
    case RunHandler(p) =>
    case ChildEnds(p) => assert Unreaped(s') == Unreaped(s);
    case Deliver =>
  }

  lemma StepKeepsPhase(s: State, c: Choice, p: int)
    requires JobsOk(s) && PhaseOk(s, p) && Enabled(s, c) && Step(s, c).clean
    ensures PhaseOk(Step(s, c), p)
  {
    var log, log' := s.log, Step(s, c).log;
    if log' != log {
      assert log' == log + [log'[|log|]];
      PhaseAfter(log, log'[|log|], p);
    }
  }

  lemma StepKeepsLog(s: State, c: Choice)
    requires JobsOk(s) && LogOk(s) && Enabled(s, c) && Step(s, c).clean
    ensures LogOk(Step(s, c))
  {
    var log' := Step(s, c).log;
    forall p ensures PhaseOk(Step(s, c), p) {
      assert PhaseOk(s, p);
      StepKeepsPhase(s, c, p);
    }
    if |log'| > |s.log| {
      assert PhaseOk(s, log'[|s.log|].pid);
      InOrderAfter(s.log, log'[|s.log|]);
    }
  }

  // ----- After the handler was entered between fork and block -----

  /** The child main forked last has not been deleted yet: it is still to be reaped, or the handler
      has it in hand. */
  ghost predicate DeletionComing(s: State) {
    && s.main == MBlockAll && s.handler.Active? && s.handler.pc != HReturn && Phase(s.log, s.pid) == 1
    && (|| s.pid in Unreaped(s)
        || ((s.handler.pc == HBlock || s.handler.pc == HDelete) && s.handler.pid == s.pid))
  }

  /** Then a child will be, or already has been, deleted before it was added. */
  ghost predicate RaceOk(s: State) {
    s.clean || !InOrder(s.log) || DeletionComing(s)
  }

  lemma DisorderStays(log: seq<JobEvent>, e: JobEvent)
    requires !InOrder(log)
    ensures !InOrder(log + [e])
  {
    var i :| 0 <= i < |log| && Phase(log[..i], log[i].pid) != match log[i] case Forked(_) => 0
        case Added(_) => 1 case Deleted(_) => 2;
    assert (log + [e])[..i] == log[..i] && (log + [e])[i] == log[i];
  }

  lemma DeletedTooSoon(log: seq<JobEvent>, p: int)
    requires Phase(log, p) == 1
    ensures !InOrder(log + [Deleted(p)])
  {
    var log' := log + [Deleted(p)];
    assert log'[..|log|] == log && log'[|log|] == Deleted(p);
  }

  lemma StepKeepsDisorder(s: State, c: Choice)
    requires Enabled(s, c) && !InOrder(s.log)
    ensures !InOrder(Step(s, c).log)
  {
    var log, log' := s.log, Step(s, c).log;
    if log' != log {
      assert log' == log + [log'[|log|]];
      DisorderStays(log, log'[|log|]);
    }
  }

  lemma StepKeepsDeletionComing(s: State, c: Choice)
    requires MasksOk(s) && Enabled(s, c) && DeletionComing(s)
    ensures !InOrder(Step(s, c).log) || DeletionComing(Step(s, c))
  {
    if c.RunHandler? && s.handler.pc == HDelete {
      if s.handler.pid == s.pid {
        DeletedTooSoon(s.log, s.pid);
      } else {
        PhaseAfter(s.log, Deleted(s.handler.pid), s.pid);
      }
    }
  }

  lemma StepKeepsRace(s: State, c: Choice)
    requires Inv(s) && Enabled(s, c)
    ensures RaceOk(Step(s, c))
  {
    if s.clean {
      assert PhaseOk(s, s.pid);
    } else if !InOrder(s.log) {
      StepKeepsDisorder(s, c);
    } else {
      StepKeepsDeletionComing(s, c);
    }
  }

  ghost predicate Inv(s: State) {
    && MasksOk(s) && WindowOk(s) && RaceOk(s)
    && (s.clean ==> JobsOk(s) && LogOk(s))
  }

  lemma StepKeepsInv(s: State, c: Choice)
    requires Inv(s) && Enabled(s, c)
    ensures Inv(Step(s, c))
  {
    StepKeepsMasks(s, c);
    StepKeepsWindow(s, c);
    StepKeepsRace(s, c);
    if Step(s, c).clean {
      StepKeepsJobs(s, c);
      StepKeepsLog(s, c);
    }
  }

  lemma RunsKeepInv(run: seq<State>)
    requires Runs.IsRun(run, Init, Next)
    ensures forall i :: 0 <= i < |run| ==> Inv(run[i])
  {
    forall s, s' | Inv(s) && Next(s, s') ensures Inv(s') {
      var c :| Enabled(s, c) && s' == Step(s, c);
      StepKeepsInv(s, c);
    }
    Runs.Invariance(run, Init, Next, Inv);
  }

  // ----- The main results -----

  lemma {:induction false} VariantIsFixed(run: seq<State>, i: nat)
    requires Runs.IsRun(run, Init, Next) && i < |run|
    ensures run[i].variant == run[0].variant
  {
    if i > 0 {
      assert Next(run[i - 1], run[i]);
      VariantIsFixed(run, i - 1);
    }
  }

  /** The masked program: in every run, whenever SIGCHLD is open and no handler is active the job
      list is the set of unreaped children, and jobs are added and deleted in order. */
  lemma MaskedRunsKeepJobList(run: seq<State>, i: nat)
    requires Runs.IsRun(run, Init, Next) && i < |run| && run[0].variant == Masked
    ensures run[i].handler == Idle && SIGCHLD !in run[i].blocked ==> run[i].jobs == Unreaped(run[i])
    ensures InOrder(run[i].log) && !run[i].stale
  {
    RunsKeepInv(run);
    VariantIsFixed(run, i);
  }

  // ----- Every mask is put back -----

  /** The mask main has at each of its statements, if it began with `mask`. */
  function MainMask(variant: Variant, mask: set<Signal>, main: MainPc): set<Signal> {
    match main
    case MBlock => mask
    case MFork | MBlockAll => if variant == Masked then mask + {SIGCHLD} else mask
    case MAdd | MRestore => mask + ALL
  }

  /** A handler returns to the mask that main had when it was entered, and until then adds SIGCHLD to
      it, and every signal around deletejob. */
  ghost predicate MasksAre(s: State, mask: set<Signal>) {
    && (s.handler == Idle ==> s.blocked == MainMask(s.variant, mask, s.main))
    && (s.handler.Active? ==>
          && s.handler.saved == MainMask(s.variant, mask, s.main)
          && if s.handler.pc == HDelete || s.handler.pc == HRestore
             then s.handler.prev == s.handler.saved + {SIGCHLD} && s.blocked == s.handler.prev + ALL
             else s.blocked == s.handler.saved + {SIGCHLD})
    && (s.main == MAdd || s.main == MRestore || (s.variant == Masked && s.main != MBlock) ==> s.prev == mask)
  }

  lemma StepKeepsMainMask(s: State, c: Choice, mask: set<Signal>)
    requires MasksOk(s) && MasksAre(s, mask) && Enabled(s, c)
    ensures MasksAre(Step(s, c), mask)
  {
    match c
    case RunMain(_) =>
      if s.main == MBlockAll {
        assert mask + {SIGCHLD} + ALL == mask + ALL;
      }
    case _ =>
  }

  /** In every run of either program, at every statement of main and of the handler, the blocked
      signals are those of the initial mask and those the program text blocks there; in particular
      every iteration ends with the mask it began with. */
  lemma RunsRestoreMasks(run: seq<State>, i: nat)
    requires Runs.IsRun(run, Init, Next) && i < |run|
    ensures MasksAre(run[i], run[0].blocked)
    ensures run[i].handler == Idle && (run[i].main == if run[0].variant == Masked then MBlock else MFork) ==>
        run[i].blocked == run[0].blocked
  {
    var mask := run[0].blocked;
    var init := (s: State) => s == run[0];
    var inv := (s: State) => MasksOk(s) && MasksAre(s, mask);
    forall s, s' | inv(s) && Next(s, s') ensures inv(s') {
      var c :| Enabled(s, c) && s' == Step(s, c);
      StepKeepsMasks(s, c);
      StepKeepsMainMask(s, c, mask);
    }
    Runs.Invariance(run, init, Next, inv);
    assert inv(run[i]);
    VariantIsFixed(run, i);
  }

  // ----- Children come and go -----

  lemma OneMoreStep(run: seq<State>, c: Choice) returns (longer: seq<State>)
    requires Runs.IsRun(run, Init, Next) && Enabled(run[|run| - 1], c)
    ensures Runs.IsRun(longer, Init, Next) && longer == run + [Step(run[|run| - 1], c)]
  {
    var last := run[|run| - 1];
    assert Next(last, Step(last, c));
    longer := run + [Step(last, c)];
  }

  ghost predicate AtStart(s: State) {
    s.handler == Idle && s.main == if s.variant == Masked then MBlock else MFork
  }

  /** An iteration of main that nothing interrupts forks one child, lists it, and leaves the rest as
      it was. */
  lemma Iteration(run: seq<State>, p: int) returns (longer: seq<State>)
    requires Runs.IsRun(run, Init, Next)
    requires var s := run[|run| - 1]; AtStart(s) && p > 0 && p !in Unreaped(s)
    ensures Runs.IsRun(longer, Init, Next) && run <= longer
    ensures var s := run[|run| - 1];
      longer[|longer| - 1] == s.(alive := s.alive + {p}, jobs := s.jobs + {p}, prev := s.blocked, pid := p,
                                 log := s.log + [Forked(p)] + [Added(p)], window := false)
  {
    longer := run;
    if run[|run| - 1].variant == Masked {
      longer := OneMoreStep(longer, RunMain(p));
    }
    longer := OneMoreStep(longer, RunMain(p));
    longer := OneMoreStep(longer, RunMain(p));
    longer := OneMoreStep(longer, RunMain(p));
    longer := OneMoreStep(longer, RunMain(p));
  }

  /** A turn of the handler's loop reaps one child and removes its job. */
  lemma Turn(run: seq<State>, p: int) returns (longer: seq<State>)
    requires Runs.IsRun(run, Init, Next)
    requires var s := run[|run| - 1]; s.handler.Active? && s.handler.pc == HWait && p in s.zombies
    ensures Runs.IsRun(longer, Init, Next) && run <= longer
    ensures var s := run[|run| - 1];
      longer[|longer| - 1] == s.(zombies := s.zombies - {p}, jobs := s.jobs - {p}, log := s.log + [Deleted(p)],
                                 handler := s.handler.(pid := p, prev := s.blocked))
  {
    longer := OneMoreStep(run, RunHandler(p));
    longer := OneMoreStep(longer, RunHandler(p));
    longer := OneMoreStep(longer, RunHandler(p));
    longer := OneMoreStep(longer, RunHandler(p));
  }

  /** The handler goes on until no child is left. */
  lemma {:induction false} Turns(run: seq<State>) returns (longer: seq<State>)
    requires Runs.IsRun(run, Init, Next)
    requires var s := run[|run| - 1]; s.handler.Active? && s.handler.pc == HWait && s.alive == {} && s.jobs == s.zombies
    ensures Runs.IsRun(longer, Init, Next) && run <= longer
    ensures var s, s' := run[|run| - 1], longer[|longer| - 1];
      && s'.handler == Idle && s'.main == s.main && s'.variant == s.variant && s'.pending == s.pending
      && s'.jobs == {} && Unreaped(s') == {} && s'.blocked == s.handler.saved
    decreases |run[|run| - 1].zombies|
  {
    var s := run[|run| - 1];
    if s.zombies == {} {
      longer := OneMoreStep(run, RunHandler(0));
      longer := OneMoreStep(longer, RunHandler(0));
    } else {
      var p := Sets.Pick(s.zombies);
      longer := Turn(run, p);
      longer := Turns(longer);
    }
  }

  function Pids(n: nat): (ps: set<int>)
    ensures forall p :: p in ps <==> 1 <= p <= n
  {
    if n == 0 then {} else Pids(n - 1) + {n}
  }

  lemma {:induction false} ForkMany(variant: Variant, mask: set<Signal>, n: nat) returns (run: seq<State>)
    requires SIGCHLD !in mask
    ensures Runs.IsRun(run, Init, Next) && run[0].variant == variant && run[0].blocked == mask
    ensures var s := run[|run| - 1];
      && AtStart(s) && s.alive == s.jobs == Pids(n) && s.zombies == {} && s.pending == {}
      && s.blocked == mask && s.variant == variant
  {
    if n == 0 {
      run := [State(variant, {}, {}, {}, mask, {}, if variant == Masked then MBlock else MFork, {}, 0, Idle, [],
                    false, true, false)];
    } else {
      run := ForkMany(variant, mask, n - 1);
      run := Iteration(run, n);
      assert Pids(n) == Pids(n - 1) + {n};
    }
  }

  lemma {:induction false} AllEnd(run: seq<State>) returns (longer: seq<State>)
    requires Runs.IsRun(run, Init, Next)
    ensures Runs.IsRun(longer, Init, Next) && run <= longer
    ensures var s := run[|run| - 1];
      longer[|longer| - 1] == s.(alive := {}, zombies := s.zombies + s.alive,
                                 pending := if s.alive == {} then s.pending else s.pending + {SIGCHLD})
    decreases |run[|run| - 1].alive|
  {
    var s := run[|run| - 1];
    if s.alive == {} {
      longer := run;
      assert s.zombies + s.alive == s.zombies;
    } else {
      var p := Sets.Pick(s.alive);
      longer := OneMoreStep(run, ChildEnds(p));
      longer := AllEnd(longer);
      assert s.zombies + {p} + (s.alive - {p}) == s.zombies + s.alive;
      assert s.pending + {SIGCHLD} + {SIGCHLD} == s.pending + {SIGCHLD};
    }
  }

  /** Any number of children can be forked and listed; and when they have all ended, the one SIGCHLD
      that is pending for all of them is enough to reap and remove every one, and main goes on with
      its mask as it was. */
  lemma OneSignalReapsAll(variant: Variant, mask: set<Signal>, n: nat) returns (run: seq<State>, i: nat)
    requires SIGCHLD !in mask && n >= 1
    ensures Runs.IsRun(run, Init, Next) && run[0].variant == variant && run[0].blocked == mask
    ensures i < |run| && AtStart(run[i]) && run[i].alive == run[i].jobs == Pids(n)
    ensures var s := run[|run| - 1];
      AtStart(s) && Unreaped(s) == s.jobs == {} && s.pending == {} && s.blocked == mask
  {
    var forked := ForkMany(variant, mask, n);
    i := |forked| - 1;
    assert 1 in Pids(n);
    var ended := AllEnd(forked);
    var entered := OneMoreStep(ended, Deliver);
    run := Turns(entered);
    assert run[i] == entered[i] == ended[i] == forked[i];
  }

  // ----- Exactly when the racy program fails -----

  /** The handler is entered between a fork and the following block. */
  ghost predicate EntersWindow(s: State, s': State) {
    s.main == MBlockAll && s.handler == Idle && s'.handler.Active?
  }

  lemma CleanStep(s: State, s': State)
    requires Inv(s) && Next(s, s')
    ensures s'.clean <==> s.clean && !EntersWindow(s, s')
  {
    var c :| Enabled(s, c) && s' == Step(s, c);
  }

  /** What the flag records. */
  lemma {:induction false} CleanExactly(run: seq<State>, i: nat)
    requires Runs.IsRun(run, Init, Next) && i < |run| && forall k :: 0 <= k < |run| ==> Inv(run[k])
    ensures run[i].clean <==> forall j :: 0 <= j < i ==> !EntersWindow(run[j], run[j + 1])
  {
    if i > 0 {
      CleanExactly(run, i - 1);
      assert Next(run[i - 1], run[i]);
      CleanStep(run[i - 1], run[i]);
      assert EntersWindow(run[i - 1], run[i - 1 + 1]) == EntersWindow(run[i - 1], run[i]);
    }
  }

  /** The racy program, exactly: at every point where no handler is at work between fork and block,
      the events are in order if and only if no handler was ever entered there; after the addjob of
      an iteration some reaped child has been listed in exactly the other case; and while it has not
      happened the job list is right at every fork. */
  lemma RacyRunsFailExactly(run: seq<State>, i: nat)
    requires Runs.IsRun(run, Init, Next) && i < |run| && run[0].variant == Racy
    ensures var never := forall j :: 0 <= j < i ==> !EntersWindow(run[j], run[j + 1]);
      && (run[i].main != MBlockAll || run[i].handler == Idle ==> (InOrder(run[i].log) <==> never))
      && (run[i].main == MRestore || run[i].main == MFork ==> (run[i].stale <==> !never))
      && (never && run[i].main == MFork && run[i].handler == Idle ==> run[i].jobs == Unreaped(run[i]))
  {
    RunsKeepInv(run);
    VariantIsFixed(run, i);
    CleanExactly(run, i);
  }

  /** Someone can always go on: main, the handler, or a child the handler waits for. */
  lemma NeverStuck(s: State)
    requires Inv(s)
    ensures exists c :: Enabled(s, c)
  {
    if s.handler == Idle {
      var newborn := FreshPid(Unreaped(s));
      assert Enabled(s, RunMain(newborn));
    } else if s.zombies != {} {
      var p := Sets.Pick(s.zombies);
      assert Enabled(s, RunHandler(p));
    } else if s.alive != {} {
      var p := Sets.Pick(s.alive);
      assert Enabled(s, ChildEnds(p));
    } else {
      assert Enabled(s, RunHandler(0));
    }
  }

  lemma {:induction false} FreshPid(used: set<int>) returns (p: int)
    ensures p > 0 && p !in used
    ensures forall q :: q in used ==> q < p
  {
    if used == {} {
      p := 1;
    } else {
      var q := Sets.Pick(used);
      p := FreshPid(used - {q});
      p := if p <= q then q + 1 else p;
      forall r | r in used ensures r < p {
        assert r == q || r in used - {q};
      }
    }
  }

  /** The first half of the run below: the child forked last has ended, the handler was entered
      before main blocked signals, and has reaped and deleted it. */
  lemma ReapedBeforeAdded() returns (run: seq<State>)
    ensures Runs.IsRun(run, Init, Next)
    ensures var s := run[|run| - 1];
      && s.variant == Racy && s.main == MBlockAll && s.pid == 1
      && s.alive == s.zombies == s.jobs == {}
      && s.handler.Active? && s.handler.pc == HRestore
      && s.log == [Forked(1), Deleted(1)]
  {
    var s0 := State(Racy, {}, {}, {}, {}, {}, MFork, {}, 0, Idle, [], false, true, false);
    var s1 := Step(s0, RunMain(1));
    var s2 := Step(s1, ChildEnds(1));
    var s3 := Step(s2, Deliver);
    assert Enabled(s3, RunHandler(1)) && s3.zombies != {};
    var s4 := Step(s3, RunHandler(1));
    var s5 := Step(s4, RunHandler(0));
    var s6 := Step(s5, RunHandler(0));
    assert Next(s0, s1) && Next(s1, s2) && Next(s2, s3) && Next(s3, s4) && Next(s4, s5) && Next(s5, s6);
    run := [s0, s1, s2, s3, s4, s5, s6];
  }

  /** A run of the racy program that leaves a reaped child in the job list for good: the child
      ends, and is reaped and deleted, before it is added. */
  lemma RacyRun() returns (run: seq<State>)
    ensures Runs.IsRun(run, Init, Next)
    ensures var last := run[|run| - 1];
      last.variant == Racy && last.handler == Idle && 1 in last.jobs && Unreaped(last) == {} && !InOrder(last.log)
  {
    var start := ReapedBeforeAdded();
    var s6 := start[|start| - 1];
    var s7 := Step(s6, RunHandler(0));
    var s8 := Step(s7, RunHandler(0));
    var s9 := Step(s8, RunHandler(0));
    var s10 := Step(s9, RunMain(0));
    var s11 := Step(s10, RunMain(0));
    assert Next(s6, s7) && Next(s7, s8) && Next(s8, s9) && Next(s9, s10) && Next(s10, s11);
    run := start + [s7, s8, s9, s10, s11];
    assert s11.log == [Forked(1), Deleted(1), Added(1)];
    AddedOutOfOrder();
  }

  lemma AddedOutOfOrder()
    ensures !InOrder([Forked(1), Deleted(1), Added(1)])
  {
    var log := [Forked(1), Deleted(1), Added(1)];
    assert log[..1] == [Forked(1)] && Phase(log[..1], 1) == 1;
  }

  // ----- The same steps performed in place -----

  /** The process and its kernel state. */
  class Process {
    const variant: Variant
    var alive: set<int>
    var zombies: set<int>
    var pending: set<Signal>
    var blocked: set<Signal>
    var jobs: set<int>
    var main: MainPc
    var prev: set<Signal>
    var pid: int
    var handler: Frame
    ghost var log: seq<JobEvent>
    ghost var window: bool
    ghost var clean: bool
    ghost var stale: bool

    ghost function Abstract(): State
      reads this
    {
      State(variant, alive, zombies, pending, blocked, jobs, main, prev, pid, handler, log, window, clean, stale)
    }

    constructor (variant: Variant, mask: set<Signal>)
      requires SIGCHLD !in mask
      ensures Init(Abstract()) && this.variant == variant && blocked == mask
    {
      this.variant := variant;
      alive, zombies, jobs, pending, blocked := {}, {}, {}, {}, mask;
      main, prev, pid, handler := if variant == Masked then MBlock else MFork, {}, 0, Idle;
      log, window, clean, stale := [], false, true, false;
    }

    /** main runs its next statement; `child` is what Fork returns. */
    method AdvanceMain(child: int)
      requires Enabled(Abstract(), RunMain(child))
      modifies this
      ensures Abstract() == old(Step(Abstract(), RunMain(child)))
    {
      match main {
        case MBlock =>
          prev, blocked := blocked, blocked + {SIGCHLD};
          main := MFork;
        case MFork =>
          pid, alive := child, alive + {child};
          log, window := log + [Forked(child)], false;
          main := MBlockAll;
        case MBlockAll =>
          if variant == Racy { prev := blocked; }
          blocked := blocked + ALL;
          main := MAdd;
        case MAdd =>
          jobs := jobs + {pid};
          log, stale := log + [Added(pid)], stale || pid !in alive + zombies;
          main := MRestore;
        case MRestore =>
          blocked := prev;
          main := if variant == Masked then MBlock else MFork;
      }
    }

    /** The handler runs its next statement; `child` is what waitpid returns. */
    method AdvanceHandler(child: int)
      requires Enabled(Abstract(), RunHandler(child))
      modifies this
      ensures Abstract() == old(Step(Abstract(), RunHandler(child)))
    {
      match handler.pc {
        case HWait =>
          if zombies != {} {
            zombies := zombies - {child};
            handler := handler.(pc := HBlock, pid := child);
          } else {
            handler := handler.(pc := HReturn);
          }
        case HBlock =>
          handler := handler.(pc := HDelete, prev := blocked);
          blocked := blocked + ALL;
        case HDelete =>
          jobs := jobs - {handler.pid};
          log := log + [Deleted(handler.pid)];
          handler := handler.(pc := HRestore);
        case HRestore =>
          blocked := handler.prev;
          handler := handler.(pc := HWait);
        case HReturn =>
          blocked := handler.saved;
          handler := Idle;
      }
    }

    /** The kernel lets a child end, or delivers SIGCHLD. */
    method AdvanceKernel(c: Choice)
      requires (c.ChildEnds? || c == Deliver) && Enabled(Abstract(), c)
      modifies this
      ensures Abstract() == old(Step(Abstract(), c))
    {
      match c {
        case ChildEnds(p) =>
          alive, zombies, pending := alive - {p}, zombies + {p}, pending + {SIGCHLD};
        case Deliver =>
          handler := Active(HWait, blocked, {}, 0);
          pending, blocked := pending - {SIGCHLD}, blocked + {SIGCHLD};
          window, clean := window || main == MBlockAll, clean && main != MBlockAll;
      }
    }

    /** Any sequence of choices keeps the job list right at the open points of the masked program. */
    method Run(choices: seq<Choice>)
      requires Inv(Abstract())
      modifies this
      ensures Inv(Abstract())
      ensures variant == Masked && handler == Idle && SIGCHLD !in blocked ==> jobs == alive + zombies
    {
      for k := 0 to |choices|
        invariant Inv(Abstract())
      {
        var c := choices[k];
        ghost var before := Abstract();
        if c.RunMain? && handler == Idle && (main == MFork ==> c.child > 0 && c.child !in alive + zombies) {
          AdvanceMain(c.child);
          StepKeepsInv(before, c);
        } else if c.RunHandler? && handler.Active? && (handler.pc == HWait ==>
            if zombies != {} then c.child in zombies else alive == {}) {
          AdvanceHandler(c.child);
          StepKeepsInv(before, c);
        } else if (c.ChildEnds? && c.child in alive) || (c == Deliver && SIGCHLD in pending && SIGCHLD !in blocked) {
          AdvanceKernel(c);
          StepKeepsInv(before, c);
        }
      }
    }
  }
}
