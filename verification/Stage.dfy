/**
 The stops of a tracee and what they make of its stage (tracee/event.c:385-420, 501-649, 755-780,
 syscall/syscall.c:103-223), beside a small model of the kernel that reports the seccomp stop before
 or after the syscall-enter stop.
 */
module Stage {
  import opened Wrappers

  /** PTRACE_CONT, PTRACE_SYSCALL. */
  datatype How = Cont | Syscall

  datatype Seccomp = Disabled | Disabling | Enabled

  /**
   `sysenter` is IS_IN_SYSENTER; `chain` is the length of the queue of chained syscalls, or NULL.  The
   last two fields are about the current syscall: how often its enter and its exit were translated.
   */
  datatype State = State(
    seccomp: Seccomp,
    sysexitPending: bool,
    lastHow: How,
    sysenter: bool,
    alreadyHandledEnter: bool,
    chain: Option<nat>,
    detected: bool,
    afterPtraceEnter: bool,
    entered: nat,
    exited: nat)

  /** How the translation of an enter asks for the exit stage: not, with sysexit_pending, or with restart_how only. */
  datatype Ask = AskNothing | AskPending | AskHow

  /** What the translation of a stage does to the tracing of its tracee. */
  datatype Effect = Effect(ask: Ask, register: nat, disable: bool)

  // ----- translate_syscall -----

  function TranslateEnter(s: State, how: How, e: Effect): (State, How) {
    var after := if s.chain.Some? || e.ask != AskNothing then Syscall else how;
    var pending := s.sysexitPending || (s.chain.None? && e.ask == AskPending);
    (s.(sysexitPending := pending, sysenter := after == Cont, entered := s.entered + 1), after)
  }

  function TranslateExit(s: State, how: How, e: Effect): (State, How) {
    var queued := (if s.chain.Some? then s.chain.value else 0) + e.register;
    var chain := if s.chain.None? && e.register == 0 then None else Some(queued);
    var asks := s.chain.None? && e.ask != AskNothing;
    var t := s.(sysenter := true, chain := chain, exited := s.exited + 1,
      sysexitPending := s.sysexitPending || asks,
      seccomp := if s.chain.None? && e.disable && s.seccomp == Enabled then Disabling else s.seccomp);
    var after := if asks then Syscall else how;
    match chain
    case None => (t, after)
    case Some(n) => if n == 0 then (t.(chain := None), after) else (t.(chain := Some(n - 1)), Syscall)
  }

  function Translate(s: State, how: How, e: Effect): (State, How) {
    if s.sysenter then TranslateEnter(s, how, e) else TranslateExit(s, how, e)
  }

  // ----- handle_tracee_event -----

  predicate SysexitNecessary(s: State) {
    s.sysexitPending || s.chain.Some?
  }

  function DefaultHow(s: State): How {
    if s.seccomp == Enabled && !SysexitNecessary(s) then Cont else Syscall
  }

  /** A syscall-enter or syscall-exit stop. */
  function Trap(s: State, e: Effect): (State, How) {
    if s.seccomp == Disabling then
      (s.(seccomp := Disabled, sysenter := false), DefaultHow(s))
    else
      var (t, how) :=
        if s.seccomp != Enabled then (s, DefaultHow(s))
        else if s.sysenter then (s.(sysexitPending := true), Syscall)
        else (s.(sysexitPending := false), Cont);
      var (u, after) :=
        if t.alreadyHandledEnter then (t.(alreadyHandledEnter := false), Syscall) else Translate(t, how, e);
      if u.seccomp == Disabling then (u.(seccomp := Disabled), Syscall) else (u, after)
  }

  /** A seccomp stop; `sysexit` is FILTER_SYSEXIT. */
  function SeccompStop(s0: State, sysexit: bool, e: Effect): (State, How) {
    var necessary, default := SysexitNecessary(s0), DefaultHow(s0);
    var s := if s0.detected then s0
             else s0.(seccomp := Enabled, detected := true, afterPtraceEnter := !s0.sysenter);
    if s.afterPtraceEnter && !s.sysenter then (s, s.lastHow)
    else if s.seccomp != Enabled then (s, default)
    else if sysexit || necessary then
      if s.afterPtraceEnter then (Translate(s, Syscall, e).0, Syscall) else (s, Syscall)
    else EnterOnly(s, e)
  }

  /** Handle the enter stage at the seccomp stop; the exit stage is hit only if the enter asks for it. */
  function EnterOnly(s: State, e: Effect): (State, How) {
    var (t, how) := Translate(s, Cont, e);
    var after := if t.sysexitPending || t.seccomp == Disabling then Syscall else how;
    (t.(alreadyHandledEnter := t.alreadyHandledEnter || (!t.afterPtraceEnter && after == Syscall)), after)
  }

  // ----- The kernel -----

  /** Where the tracee is between two stops, and how it was restarted. */
  datatype Phase = User | AfterSeccomp | AfterEnter | Executing

  /**
   The tracee with its kernel.  `slow` tells whether the current syscall was entered with PTRACE_SYSCALL, but
   for the very first report of the filter in the old order, which decides about the exit by itself;
   `traced` tells whether the filter reports it, `owed` whether its exit was asked for, `forks` whether it makes a
   new child; `done` tells of the syscalls that are over.
   */
  datatype Config = Config(s: State, phase: Phase, how: How, stopped: bool, slow: bool, traced: bool, owed: bool,
                           forks: bool, done: seq<Record>)

  /**
   How a syscall went: whether all of its stops were asked for, whether the filter reported it, whether its
   exit was asked for, whether it was stopped at all, and how often its stages were translated.
   */
  datatype Record = Record(slow: bool, traced: bool, owed: bool, stopped: bool, entered: nat, exited: nat)

  /**
   `Begin` is a syscall with the action of the filter for it: none, or a trace with or without
   FILTER_SYSEXIT.  `Go` is what follows in the kernel.  `Signal` stands for the delivery of a signal
   in user code, `Event` for an exec, vfork-done or exit stop, `Fork` for a fork, vfork or clone stop.
   */
  datatype Input = Begin(filter: Option<bool>, effect: Effect, forks: bool) | Go(filter: Option<bool>, effect: Effect)
                 | Signal | Event | Fork

  /**
   What can come for a syscall that makes a child.  clone and clone3 are filtered without
   FILTER_SYSEXIT, fork and vfork not at all; the translation of their enter asks for nothing; and the
   first syscall that the filter ever reports is the execve with which the first tracee starts.
   */
  predicate ForkLike(s: State, filter: Option<bool>, e: Effect) {
    filter != Some(true) && e.ask == AskNothing && (filter.Some? ==> s.detected)
  }

  /** The translation of the enter asks for the exit: by itself, or because a chain is under way. */
  predicate Asks(before: State, after: State, e: Effect) {
    after.entered > before.entered && (e.ask != AskNothing || before.chain.Some?)
  }

  /** Handle a stop and restart. */
  function AtTrap(c: Config, e: Effect, next: Phase): Config {
    var (t, how) := Trap(c.s, e);
    c.(s := t.(lastHow := how), phase := next, how := how, stopped := true, owed := c.owed || Asks(c.s, t, e))
  }

  function AtSeccomp(c: Config, sysexit: bool, e: Effect, next: Phase): Config {
    var (t, how) := SeccompStop(c.s, sysexit, e);
    c.(s := t.(lastHow := how), phase := next, how := how, stopped := true, traced := true,
       owed := c.owed || sysexit || Asks(c.s, t, e))
  }

  function WithHow(c: Config, how: How): Config {
    c.(s := c.s.(lastHow := how), how := how)
  }

  /** The first report of all sets the tracee free, unless an exit is already planned. */
  function FirstReport(c: Config): Config {
    c.(slow := c.slow && (c.s.detected || SysexitNecessary(c.s)))
  }

  function AtBegin(newOrder: bool, c: Config, filter: Option<bool>, e: Effect): Config {
    if newOrder then
      if c.how == Syscall then AtTrap(c, e, AfterEnter)
      else if filter.Some? then AtSeccomp(c, filter.value, e, Executing)
      else c.(phase := Executing)
    else if filter.Some? then AtSeccomp(FirstReport(c), filter.value, e, AfterSeccomp)
    else if c.how == Syscall then AtTrap(c, e, Executing)
    else c.(phase := Executing)
  }

  function AtEnd(c: Config, e: Effect): Config {
    var d := if c.how == Syscall then AtTrap(c, e, User) else c.(phase := User);
    d.(done := d.done + [Record(d.slow, d.traced, d.owed, d.stopped, d.s.entered, d.s.exited)])
  }

  function Started(c: Config, forks: bool): Config {
    c.(stopped := false, slow := c.how == Syscall, traced := false, owed := false, forks := forks,
       s := c.s.(entered := 0, exited := 0))
  }

  function Next(newOrder: bool, c: Config, i: Input): Option<Config> {
    match i
    case Begin(filter, e, forks) =>
      if c.phase == User && (forks ==> ForkLike(c.s, filter, e)) then
        Some(AtBegin(newOrder, Started(c, forks), filter, e))
      else None
    case Go(filter, e) =>
      if c.forks && c.phase in {AfterSeccomp, AfterEnter} && !ForkLike(c.s, filter, e) then None
      else
      (match c.phase
       case User => None
       case AfterSeccomp => Some(if c.how == Syscall then AtTrap(c, e, Executing) else c.(phase := Executing))
       case AfterEnter => Some(if filter.Some? then AtSeccomp(c, filter.value, e, Executing) else c.(phase := Executing))
       case Executing => Some(AtEnd(c, e)))
    case Signal => if c.phase == User then Some(WithHow(c, DefaultHow(c.s))) else None
    case Event => if c.phase == Executing then Some(WithHow(c, c.s.lastHow)) else None
    case Fork => if c.phase == Executing && c.forks then Some(WithHow(c, DefaultHow(c.s))) else None
  }

  // ----- The invariant -----

  /** The order of stops is known, or no seccomp stop has come yet. */
  predicate OrderKnown(newOrder: bool, s: State) {
    if s.detected then s.afterPtraceEnter == newOrder else s.seccomp == Disabled
  }

  predicate PhaseOk(newOrder: bool, c: Config) {
    var s := c.s;
    match c.phase
    case User =>
      && s.sysenter && !s.alreadyHandledEnter
      && (c.how == Cont <==> s.seccomp == Enabled && !SysexitNecessary(s))
    case AfterSeccomp =>
      && !newOrder && c.stopped && c.traced && s.exited == 0
      && if s.sysenter && c.how == Syscall then s.entered == 0 && !s.alreadyHandledEnter && (c.slow || c.owed)
         else if c.how == Syscall then
           s.entered == 1 && s.alreadyHandledEnter && s.seccomp == Enabled && (c.slow || c.owed)
         else s.entered == 1 && s.sysenter && !s.alreadyHandledEnter && !c.owed && !c.slow && s.seccomp == Enabled
                && !SysexitNecessary(s)
    case AfterEnter =>
      && newOrder && c.stopped && c.slow && !c.traced && c.how == Syscall && !s.sysenter && !s.alreadyHandledEnter
      && s.entered == 1 && s.exited == 0
    case Executing =>
      && !s.alreadyHandledEnter && s.exited == 0 && (c.stopped <==> c.slow || c.traced)
      && if c.how == Syscall then c.stopped && !s.sysenter && s.entered == 1 && (c.slow || c.owed)
         else s.sysenter && !c.owed && !c.slow && s.seccomp == Enabled && !SysexitNecessary(s)
                && s.entered == (if c.stopped then 1 else 0)
  }

  /**
   What is promised of every syscall: its enter is translated once if it is stopped at all, which is if all
   stops are asked for or the filter reports it; its exit is translated once if all stops are asked for or
   the exit is, and else not at all.
   */
  predicate Promised(r: Record) {
    && (r.stopped <==> r.slow || r.traced)
    && r.entered == (if r.stopped then 1 else 0)
    && r.exited == (if r.slow || r.owed then 1 else 0)
  }

  /** A fork stop does not make the exit stage be missed: it was not asked for, or the tracee still knows. */
  predicate ForkIsSafe(c: Config) {
    c.s.sysenter || c.s.seccomp != Enabled || SysexitNecessary(c.s)
  }

  /** All along a syscall that makes a child its fork stop is safe. */
  predicate ForkOk(c: Config) {
    c.forks ==>
      match c.phase
      case User => true
      case AfterSeccomp => c.how == Syscall ==> c.s.sysenter
      case AfterEnter => ForkIsSafe(c)
      case Executing => ForkIsSafe(c)
  }

  predicate Inv(newOrder: bool, c: Config) {
    && OrderKnown(newOrder, c.s) && c.s.lastHow == c.how && c.s.seccomp != Disabling
    && PhaseOk(newOrder, c) && ForkOk(c)
    && forall i :: 0 <= i < |c.done| ==> Promised(c.done[i])
  }

  lemma BeginKeeps(newOrder: bool, c: Config, filter: Option<bool>, e: Effect)
    requires Inv(newOrder, c) && c.phase == User && !c.stopped && c.s.entered == c.s.exited == 0 && !c.owed
    requires !c.traced && (c.slow <==> c.how == Syscall)
    requires c.forks ==> ForkLike(c.s, filter, e)
    ensures Inv(newOrder, AtBegin(newOrder, c, filter, e))
  {
  }

  lemma AfterSeccompKeeps(newOrder: bool, c: Config, e: Effect)
    requires Inv(newOrder, c) && c.phase == AfterSeccomp && (c.forks ==> e.ask == AskNothing)
    ensures Inv(newOrder, if c.how == Syscall then AtTrap(c, e, Executing) else c.(phase := Executing))
  {
  }

  lemma AfterEnterKeeps(newOrder: bool, c: Config, filter: Option<bool>, e: Effect)
    requires Inv(newOrder, c) && c.phase == AfterEnter && (c.forks ==> ForkLike(c.s, filter, e))
    ensures Inv(newOrder, if filter.Some? then AtSeccomp(c, filter.value, e, Executing) else c.(phase := Executing))
  {
  }

  /** An exit stop. */
  lemma ExitStop(newOrder: bool, c: Config, e: Effect)
    requires Inv(newOrder, c) && c.phase == Executing && c.how == Syscall
    ensures var d := AtTrap(c, e, User);
      && PhaseOk(newOrder, d) && OrderKnown(newOrder, d.s) && d.s.lastHow == d.how && d.s.seccomp != Disabling
      && d.done == c.done && d.stopped && d.s.entered == 1 && d.s.exited == 1
      && d.owed == c.owed && d.slow == c.slow && d.traced == c.traced
  {
    var s := c.s;
    var t := if s.seccomp != Enabled then s else s.(sysexitPending := false);
    assert !t.alreadyHandledEnter && !t.sysenter;
  }

  lemma EndKeeps(newOrder: bool, c: Config, e: Effect)
    requires Inv(newOrder, c) && c.phase == Executing
    ensures Inv(newOrder, AtEnd(c, e))
  {
    if c.how == Syscall {
      ExitStop(newOrder, c, e);
    }
  }

  lemma ForkKeeps(newOrder: bool, c: Config)
    requires Inv(newOrder, c) && c.phase == Executing && c.forks
    ensures Inv(newOrder, WithHow(c, DefaultHow(c.s)))
  {
  }

  lemma StepKeeps(newOrder: bool, c: Config, i: Input)
    requires Inv(newOrder, c) && Next(newOrder, c, i).Some?
    ensures Inv(newOrder, Next(newOrder, c, i).value)
  {
    match i
    case Begin(filter, e, forks) =>
      BeginKeeps(newOrder, Started(c, forks), filter, e);
    case Go(filter, e) =>
      if c.phase == AfterSeccomp {
        AfterSeccompKeeps(newOrder, c, e);
      } else if c.phase == AfterEnter {
        AfterEnterKeeps(newOrder, c, filter, e);
      } else {
        EndKeeps(newOrder, c, e);
      }
    case Signal =>
    case Event =>
    case Fork => ForkKeeps(newOrder, c);
  }

  function Run(newOrder: bool, c: Config, inputs: seq<Input>): Option<Config>
    decreases |inputs|
  {
    if inputs == [] then Some(c)
    else
      match Next(newOrder, c, inputs[0])
      case None => None
      case Some(d) => Run(newOrder, d, inputs[1..])
  }

  /** A tracee before its first syscall; seccomp is found out with the first seccomp stop. */
  function Initial(assumeNew: bool): Config {
    Config(State(Disabled, false, Syscall, true, false, None, false, assumeNew, 0, 0), User, Syscall,
           false, false, false, false, false, [])
  }

  /**
   Over every run, with either order of stops: the enter of every syscall that was stopped is
   translated exactly once, and its exit exactly once if it was asked for, or all stops were, and else not.
   */
  lemma {:induction false} RunKeepsPromises(newOrder: bool, c: Config, inputs: seq<Input>)
    requires Inv(newOrder, c) && Run(newOrder, c, inputs).Some?
    ensures Inv(newOrder, Run(newOrder, c, inputs).value)
    decreases |inputs|
  {
    if inputs != [] {
      StepKeeps(newOrder, c, inputs[0]);
      RunKeepsPromises(newOrder, Next(newOrder, c, inputs[0]).value, inputs[1..]);
    }
  }

  lemma InitialKeepsPromises(newOrder: bool, assumeNew: bool, inputs: seq<Input>)
    requires Run(newOrder, Initial(assumeNew), inputs).Some?
    ensures forall r :: r in Run(newOrder, Initial(assumeNew), inputs).value.done ==> Promised(r)
  {
    RunKeepsPromises(newOrder, Initial(assumeNew), inputs);
  }

  // ----- Chained syscalls and the end of the acceleration -----

  function QueueLength(s: State): nat {
    if s.chain.Some? then s.chain.value else 0
  }

  /**
   The exit of a syscall takes the first of the queued syscalls, if there is one, and keeps all stops until
   the queue has run dry.  A request to disable seccomp takes effect with the exit, unless a chain is
   under way.
   */
  lemma ExitEffects(newOrder: bool, c: Config, e: Effect)
    requires Inv(newOrder, c) && c.phase == Executing && c.how == Syscall
    ensures var d, total := AtEnd(c, e), QueueLength(c.s) + e.register;
      && (total > 0 ==> d.s.chain == Some(total - 1) && d.how == Syscall)
      && (total == 0 ==> d.s.chain == None)
      && d.s.seccomp == (if c.s.seccomp == Enabled && c.s.chain.None? && e.disable then Disabled else c.s.seccomp)
      && (d.how == Cont <==> d.s.seccomp == Enabled && total == 0 && (c.s.chain.None? ==> e.ask == AskNothing))
  {
    var s := c.s;
    var t := if s.seccomp != Enabled then s else s.(sysexitPending := false);
    var how := if s.seccomp != Enabled then DefaultHow(s) else Cont;
    assert !t.alreadyHandledEnter && !t.sysenter;
    assert Trap(s, e).0.chain == TranslateExit(t, how, e).0.chain;
  }

  /** All syscalls from the `n`th on were entered with all stops asked for. */
  predicate SlowFrom(done: seq<Record>, n: nat) {
    forall i :: n <= i < |done| ==> done[i].slow
  }

  /** With seccomp disabled for good. */
  predicate Off(c: Config, n: nat) {
    && c.s.detected && c.s.seccomp == Disabled && SlowFrom(c.done, n) && (c.phase == User || c.slow)
  }

  lemma StepStaysOff(newOrder: bool, c: Config, i: Input, n: nat)
    requires Inv(newOrder, c) && Off(c, n) && Next(newOrder, c, i).Some?
    ensures Off(Next(newOrder, c, i).value, n)
  {
  }

  /** Once disabled, seccomp stays so, and every later syscall is stopped at its enter and at its exit. */
  lemma {:induction false} RunStaysOff(newOrder: bool, c: Config, inputs: seq<Input>, n: nat)
    requires Inv(newOrder, c) && Off(c, n) && Run(newOrder, c, inputs).Some?
    ensures var d := Run(newOrder, c, inputs).value;
      && d.s.seccomp == Disabled
      && forall i :: n <= i < |d.done| ==> d.done[i].stopped && d.done[i].entered == 1 && d.done[i].exited == 1
    decreases |inputs|
  {
    hide Inv, Off, Next, SlowFrom;
    if inputs == [] {
      OffIsSlow(newOrder, c, n);
    } else {
      StepKeeps(newOrder, c, inputs[0]);
      StepStaysOff(newOrder, c, inputs[0], n);
      RunStaysOff(newOrder, Next(newOrder, c, inputs[0]).value, inputs[1..], n);
    }
  }

  lemma OffIsSlow(newOrder: bool, c: Config, n: nat)
    requires Inv(newOrder, c) && Off(c, n)
    ensures c.s.seccomp == Disabled
    ensures forall i :: n <= i < |c.done| ==> c.done[i].stopped && c.done[i].entered == 1 && c.done[i].exited == 1
  {
    forall i | n <= i < |c.done|
      ensures c.done[i].stopped && c.done[i].entered == 1 && c.done[i].exited == 1
    {
      assert Promised(c.done[i]);
    }
  }

  // ----- The assertions of the code -----

  /** event.c:602, 605 at a seccomp stop; event.c:552-553 at a syscall stop. */
  predicate AssertionsHold(s: State) {
    var after := if s.detected then s.afterPtraceEnter else !s.sysenter;
    && (after && !s.sysenter ==> s.lastHow == Syscall)
    && (!(after && !s.sysenter) ==> s.sysenter || !s.detected)
    && (s.alreadyHandledEnter ==> !s.sysenter && !s.afterPtraceEnter)
  }

  lemma AssertionsNeverFail(newOrder: bool, c: Config)
    requires Inv(newOrder, c) && (c.phase == User || (newOrder && c.phase == AfterEnter))
    ensures AssertionsHold(c.s)
  {
  }

  lemma HandledEnterIsOld(newOrder: bool, c: Config)
    requires Inv(newOrder, c) && c.s.alreadyHandledEnter
    ensures !c.s.sysenter && c.phase == AfterSeccomp && !newOrder && (c.s.detected ==> !c.s.afterPtraceEnter)
  {
  }

  // ----- A fork stop -----

  /**
   Why a syscall that makes a child must not ask for its exit: when the exit is owed, the stop for the
   new child lets the promise be kept exactly when that stop is safe.
   */
  lemma ForkKeepsExitIff(newOrder: bool, c: Config, e: Effect)
    requires Inv(newOrder, c.(forks := false)) && c.phase == Executing && c.how == Syscall && c.owed
    ensures var d := AtEnd(WithHow(c, DefaultHow(c.s)), e);
      |d.done| == |c.done| + 1 && (Promised(d.done[|c.done|]) <==> ForkIsSafe(c))
  {
    if ForkIsSafe(c) {
      ExitStop(newOrder, c.(forks := false), e);
    }
  }

  /** Every stop for a new child is safe. */
  lemma ForkStopsAreSafe(newOrder: bool, assumeNew: bool, inputs: seq<Input>)
    requires Run(newOrder, Initial(assumeNew), inputs).Some?
    requires Next(newOrder, Run(newOrder, Initial(assumeNew), inputs).value, Fork).Some?
    ensures ForkIsSafe(Run(newOrder, Initial(assumeNew), inputs).value)
  {
    RunKeepsPromises(newOrder, Initial(assumeNew), inputs);
  }

  // ----- The code -----

  /** What PRoot keeps of a tracee. */
  class Tracee {
    var seccomp: Seccomp
    var sysexitPending: bool
    var restartHow: Option<How>
    var lastRestartHow: How
    var inSysenter: bool
    var seccompAlreadyHandledEnter: bool
    var chain: Option<nat>
    var seccompDetected: bool
    var seccompAfterPtraceEnter: bool
    ghost var entered: nat
    ghost var exited: nat

    ghost function Now(): State
      reads this
    {
      State(seccomp, sysexitPending, lastRestartHow, inSysenter, seccompAlreadyHandledEnter, chain,
            seccompDetected, seccompAfterPtraceEnter, entered, exited)
    }

    constructor (s: State)
      ensures Now() == s && restartHow == None
    {
      seccomp, sysexitPending, lastRestartHow := s.seccomp, s.sysexitPending, s.lastHow;
      inSysenter, seccompAlreadyHandledEnter, chain := s.sysenter, s.alreadyHandledEnter, s.chain;
      seccompDetected, seccompAfterPtraceEnter := s.detected, s.afterPtraceEnter;
      entered, exited := s.entered, s.exited;
      restartHow := None;
    }

    /** translate_syscall, on the stage only; `e` is what the translation of the stage does to it. */
    method TranslateSyscall(e: Effect)
      requires restartHow.Some?
      modifies this
      ensures restartHow.Some?
      ensures (Now(), restartHow.value) == Translate(old(Now()), old(restartHow.value), e)
    {
      if inSysenter {
        entered := entered + 1;
        if chain.None? {
          if e.ask == AskPending {
            sysexitPending := true;
          }
          if e.ask != AskNothing {
            restartHow := Some(Syscall);
          }
        } else {
          restartHow := Some(Syscall);
        }
        inSysenter := false;
        if restartHow.value == Cont {
          inSysenter := true;
        }
      } else {
        exited := exited + 1;
        if chain.None? {
          if e.ask != AskNothing {
            sysexitPending := true;
            restartHow := Some(Syscall);
          }
          if e.disable && seccomp == Enabled {
            seccomp := Disabling;
          }
        }
        if e.register > 0 {
          chain := Some((if chain.Some? then chain.value else 0) + e.register);
        }
        inSysenter := true;
        if chain.Some? {
          if chain.value == 0 {
            chain := None;
          } else {
            chain := Some(chain.value - 1);
            restartHow := Some(Syscall);
          }
        }
      }
    }

    /** The beginning of handle_tracee_event. */
    method ChooseHow() returns (sysexitNecessary: bool)
      requires restartHow.None?
      modifies this`restartHow
      ensures sysexitNecessary == SysexitNecessary(Now()) && restartHow == Some(DefaultHow(Now()))
    {
      sysexitNecessary := sysexitPending || chain.Some?;
      if seccomp == Enabled && !sysexitNecessary {
        restartHow := Some(Cont);
      } else {
        restartHow := Some(Syscall);
      }
    }

    /** handle_tracee_event on a syscall stop. */
    method HandleTrap(e: Effect)
      requires restartHow.None?
      modifies this
      ensures restartHow.Some?
      ensures (Now(), restartHow.value) == Trap(old(Now()), e)
    {
      var _ := ChooseHow();
      if seccomp == Disabling {
        seccomp := Disabled;
        inSysenter := false;
        return;
      }
      if seccomp == Enabled {
        if inSysenter {
          restartHow := Some(Syscall);
          sysexitPending := true;
        } else {
          restartHow := Some(Cont);
          sysexitPending := false;
        }
      }
      if !seccompAlreadyHandledEnter {
        TranslateSyscall(e);
      } else {
        seccompAlreadyHandledEnter := false;
        restartHow := Some(Syscall);
      }
      if seccomp == Disabling {
        restartHow := Some(Syscall);
        seccomp := Disabled;
      }
    }

    /** handle_tracee_event on a seccomp stop. */
    method HandleSeccomp(sysexit: bool, e: Effect)
      requires restartHow.None?
      modifies this
      ensures restartHow.Some?
      ensures (Now(), restartHow.value) == SeccompStop(old(Now()), sysexit, e)
    {
      var sysexitNecessary := ChooseHow();
      if !seccompDetected {
        seccomp := Enabled;
        seccompDetected := true;
        seccompAfterPtraceEnter := !inSysenter;
      }
      if seccompAfterPtraceEnter && !inSysenter {
        restartHow := Some(lastRestartHow);
        return;
      }
      if seccomp != Enabled {
        return;
      }
      if sysexit || sysexitNecessary {
        if seccompAfterPtraceEnter {
          restartHow := Some(Syscall);
          TranslateSyscall(e);
        }
        restartHow := Some(Syscall);
        return;
      }
      EnterWithoutExit(e);
    }

    /** The part of a seccomp stop that does not plan to hit the exit stage. */
    method EnterWithoutExit(e: Effect)
      requires restartHow.Some?
      modifies this
      ensures restartHow.Some?
      ensures (Now(), restartHow.value) == EnterOnly(old(Now()), e)
    {
      restartHow := Some(Cont);
      TranslateSyscall(e);
      if sysexitPending {
        restartHow := Some(Syscall);
      }
      if seccomp == Disabling {
        restartHow := Some(Syscall);
      }
      if !seccompAfterPtraceEnter && restartHow == Some(Syscall) {
        seccompAlreadyHandledEnter := true;
      }
    }

    /** restart_tracee. */
    method Restart() returns (how: How)
      requires restartHow.Some?
      modifies this`lastRestartHow, this`restartHow
      ensures how == old(restartHow.value) && restartHow.None? && Now() == old(Now()).(lastHow := how)
    {
      how := restartHow.value;
      lastRestartHow := how;
      restartHow := None;
    }
  }
}
