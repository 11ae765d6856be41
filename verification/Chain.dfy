/**
 Chained syscalls (syscall/chain.c:43-163, syscall/syscall.c:116-223, tracee/reg.c:209-328): a FIFO of
 syscalls run after the one the tracee asked for, between register banks that are saved and restored.
 */
module Chain {
  import opened Collections
  import opened Wrappers

  type Word = nat

  datatype Reg = SysargNum | Sysarg1 | Sysarg2 | Sysarg3 | Sysarg4 | Sysarg5 | Sysarg6
               | SysargResult | StackPointer | InstrPointer

  /** struct chained_syscall. */
  datatype Chained = Chained(sysnum: Word, args: seq<Word>)

  type Bank = seq<Word>

  /**
   An architecture: where each register is in a bank, which register gives the number to the trap
   instruction, and the length of this instruction.
   */
  datatype Arch = Arch(slot: Reg -> nat, slots: nat, trap: Reg, trapSize: nat)

  /** Registers do not overlap, but one argument may be where the result is. */
  ghost predicate SoundArch(a: Arch) {
    && (forall r :: a.slot(r) < a.slots)
    && (forall r, q :: r != q && a.slot(r) == a.slot(q) ==> r == SysargResult || q == SysargResult)
    && a.slot(SysargResult) != a.slot(StackPointer) && a.slot(SysargResult) != a.slot(InstrPointer)
    && a.trapSize > 0 && (a.trap == SysargNum || a.trap == SysargResult)
    && (a.trap == SysargResult ==> forall r :: a.slot(r) == a.slot(SysargResult) ==> r == SysargResult)
  }

  /**
   What PRoot keeps of a tracee's registers: the real ones, CURRENT, ORIGINAL, _regs_were_changed and
   restore_original_regs; and its chain, with the result to force if there is one.
   */
  datatype State = State(
    process: Bank,
    current: Bank,
    original: Bank,
    changed: bool,
    restore: bool,
    chain: Option<seq<Chained>>,
    forced: Option<Word>)

  // ----- Registers -----

  /** Every register has its place in the bank. */
  ghost predicate Fits(a: Arch, b: Bank) {
    |b| == a.slots && forall r {:trigger a.slot(r)} :: a.slot(r) < a.slots
  }

  /** poke_reg. */
  function Poke(a: Arch, s: State, r: Reg, v: Word): (t: State)
    requires Fits(a, s.current)
    ensures Fits(a, t.current) && t == s.(current := t.current, changed := t.changed)
  {
    if s.current[a.slot(r)] == v then s
    else s.(current := s.current[a.slot(r) := v], changed := true)
  }

  /** The registers that are given back, in the order of reg.c:317-324. */
  const RESTORED: seq<Reg> :=
    [SysargNum, Sysarg1, Sysarg2, Sysarg3, Sysarg4, Sysarg5, Sysarg6, StackPointer]

  function PokeAll(a: Arch, s: State, pokes: seq<(Reg, Word)>): (t: State)
    requires Fits(a, s.current)
    ensures Fits(a, t.current) && t == s.(current := t.current, changed := t.changed)
    decreases |pokes|
  {
    if pokes == [] then s else PokeAll(a, Poke(a, s, pokes[0].0, pokes[0].1), pokes[1..])
  }

  function RestoreOne(a: Arch, current: Bank, original: Bank, r: Reg): (b: Bank)
    requires Fits(a, current) && Fits(a, original)
    ensures Fits(a, b)
  {
    if a.slot(SysargResult) != a.slot(r) then current[a.slot(r) := original[a.slot(r)]] else current
  }

  function Restore(a: Arch, current: Bank, original: Bank, regs: seq<Reg>): (b: Bank)
    requires Fits(a, current) && Fits(a, original)
    ensures Fits(a, b)
    decreases |regs|
  {
    if regs == [] then current else Restore(a, RestoreOne(a, current, original, regs[0]), original, regs[1..])
  }

  ghost predicate Banks(a: Arch, s: State) {
    Fits(a, s.process) && Fits(a, s.current) && Fits(a, s.original)
  }

  /** push_specific_regs. */
  function Push(a: Arch, s: State): (t: State)
    requires Banks(a, s)
    ensures Banks(a, t)
  {
    if !s.changed then s
    else
      var b := if s.restore then Restore(a, s.current, s.original, RESTORED) else s.current;
      s.(current := b, process := b)
  }

  function Fetch(s: State): State {
    s.(current := s.process)
  }

  function SaveOriginal(s: State): State {
    s.(original := s.current, changed := false)
  }

  // ----- The chain -----

  /** register_chained_syscall: append. */
  function Register(s: State, c: Chained): State {
    s.(chain := Some((if s.chain.Some? then s.chain.value else []) + [c]))
  }

  function RegisterAll(s: State, cs: seq<Chained>): State
    decreases |cs|
  {
    if cs == [] then s else RegisterAll(Register(s, cs[0]), cs[1..])
  }

  /** The pokes that forge a syscall: its arguments, its number, and the instruction pointer. */
  function Forge(a: Arch, c: Chained, trapAt: Word): seq<(Reg, Word)>
    requires |c.args| == 6
  {
    [(Sysarg1, c.args[0]), (Sysarg2, c.args[1]), (Sysarg3, c.args[2]), (Sysarg4, c.args[3]),
     (Sysarg5, c.args[4]), (Sysarg6, c.args[5]), (a.trap, c.sysnum), (InstrPointer, trapAt)]
  }

  ghost predicate CanNext(a: Arch, s: State) {
    && Banks(a, s) && s.chain.Some? && (forall c :: c in s.chain.value ==> |c.args| == 6)
    && a.slot(InstrPointer) < a.slots && s.current[a.slot(InstrPointer)] >= a.trapSize
  }

  /** chain_next_syscall; the number is that of the tracee's ABI already. */
  function Next(a: Arch, s: State): (t: State)
    requires CanNext(a, s)
    ensures Banks(a, t)
  {
    if s.chain.value == [] then
      var t := if s.forced.Some? then Poke(a, s, SysargResult, s.forced.value) else s;
      t.(chain := None, forced := None)
    else
      var trapAt := s.current[a.slot(InstrPointer)] - a.trapSize;
      var t := s.(restore := false, chain := Some(s.chain.value[1..]));
      PokeAll(a, t, Forge(a, s.chain.value[0], trapAt))
  }

  // ----- Pokes -----

  lemma {:induction false} PokeAllKeeps(a: Arch, s: State, pokes: seq<(Reg, Word)>, k: nat)
    requires Fits(a, s.current) && k < a.slots
    requires forall i :: 0 <= i < |pokes| ==> a.slot(pokes[i].0) != k
    ensures PokeAll(a, s, pokes).current[k] == s.current[k]
    decreases |pokes|
  {
    if pokes != [] {
      assert a.slot(pokes[0].0) != k;
      PokeAllKeeps(a, Poke(a, s, pokes[0].0, pokes[0].1), pokes[1..], k);
    }
  }

  /** A poke that no later one overwrites. */
  lemma {:induction false} PokeAllGives(a: Arch, s: State, pokes: seq<(Reg, Word)>, n: nat)
    requires Fits(a, s.current) && n < |pokes|
    requires forall i :: n < i < |pokes| ==> a.slot(pokes[i].0) != a.slot(pokes[n].0)
    ensures PokeAll(a, s, pokes).current[a.slot(pokes[n].0)] == pokes[n].1
    decreases |pokes|
  {
    var t := Poke(a, s, pokes[0].0, pokes[0].1);
    if n == 0 {
      PokeAllKeeps(a, t, pokes[1..], a.slot(pokes[0].0));
    } else {
      PokeAllGives(a, t, pokes[1..], n - 1);
    }
  }

  lemma {:induction false} PokeAllChanges(a: Arch, s: State, pokes: seq<(Reg, Word)>)
    requires Fits(a, s.current)
    ensures !PokeAll(a, s, pokes).changed ==> !s.changed && PokeAll(a, s, pokes).current == s.current
    decreases |pokes|
  {
    if pokes != [] {
      PokeAllChanges(a, Poke(a, s, pokes[0].0, pokes[0].1), pokes[1..]);
    }
  }

  // ----- Restoring -----

  lemma {:induction false} RestoreGives(a: Arch, current: Bank, original: Bank, regs: seq<Reg>, k: nat)
    requires Fits(a, current) && Fits(a, original) && k < a.slots
    ensures Restore(a, current, original, regs)[k] ==
              if k != a.slot(SysargResult) && exists i :: 0 <= i < |regs| && a.slot(regs[i]) == k then original[k]
              else current[k]
    decreases |regs|
  {
    if regs != [] {
      RestoreGives(a, RestoreOne(a, current, original, regs[0]), original, regs[1..], k);
      if a.slot(regs[0]) != k {
        assert forall i :: 0 < i < |regs| ==> regs[i] == regs[1..][i - 1];
      }
    }
  }

  /** A register of the request that PRoot gives back. */
  predicate GivenBack(a: Arch, r: Reg) {
    r != SysargResult && r != InstrPointer && a.slot(r) != a.slot(SysargResult)
  }

  lemma RestoredRegisters(a: Arch, current: Bank, original: Bank, r: Reg)
    requires SoundArch(a) && Fits(a, current) && Fits(a, original)
    ensures GivenBack(a, r) ==> Restore(a, current, original, RESTORED)[a.slot(r)] == original[a.slot(r)]
    ensures r == SysargResult || r == InstrPointer ==>
              Restore(a, current, original, RESTORED)[a.slot(r)] == current[a.slot(r)]
  {
    RestoreGives(a, current, original, RESTORED, a.slot(r));
    if GivenBack(a, r) {
      IsRestored(r);
    } else if exists i :: 0 <= i < |RESTORED| && a.slot(RESTORED[i]) == a.slot(r) {
      var i :| 0 <= i < |RESTORED| && a.slot(RESTORED[i]) == a.slot(r);
      NotRestored(i);
    }
  }

  lemma IsRestored(r: Reg)
    requires r != SysargResult && r != InstrPointer
    ensures exists i :: 0 <= i < |RESTORED| && RESTORED[i] == r
  {
    assert RESTORED[0] == SysargNum && RESTORED[1] == Sysarg1 && RESTORED[2] == Sysarg2 && RESTORED[3] == Sysarg3;
    assert RESTORED[4] == Sysarg4 && RESTORED[5] == Sysarg5 && RESTORED[6] == Sysarg6 && RESTORED[7] == StackPointer;
  }

  lemma NotRestored(i: nat)
    requires i < |RESTORED|
    ensures RESTORED[i] != SysargResult && RESTORED[i] != InstrPointer
  {
  }

  // ----- A request, its chain, and the kernel -----

  /**
   What happens at an exit stage: the result of the kernel, what the translation of the exit pokes,
   what is registered, and the result that is forced, if any.
   */
  datatype Act = Act(result: Word, pokes: seq<(Reg, Word)>, register: seq<Chained>, force: Option<Word>)

  ghost predicate SoundAct(act: Act) {
    && (forall i :: 0 <= i < |act.pokes| ==> act.pokes[i].0 != InstrPointer)
    && (forall c :: c in act.register ==> |c.args| == 6)
  }

  /** The enter stage of a requested syscall. */
  function Enter(a: Arch, s: State, pokes: seq<(Reg, Word)>): State
    requires Banks(a, s)
  {
    Push(a, PokeAll(a, SaveOriginal(Fetch(s).(restore := false)), pokes))
  }

  /** The kernel's execution. */
  function Execute(a: Arch, s: State, result: Word): State
    requires Banks(a, s)
  {
    s.(process := s.process[a.slot(SysargResult) := result])
  }

  /** The exit stage, up to the chain. */
  function BeforeChain(a: Arch, s: State, act: Act): (t: State)
    requires Banks(a, s)
    ensures Banks(a, t)
  {
    var f := Fetch(s).(restore := true);
    var g := if f.chain.None? then PokeAll(a, f, act.pokes) else f;
    var h := if act.force.Some? then g.(forced := act.force) else g;
    RegisteredBanks(a, h, act.register);
    RegisterAll(h, act.register)
  }

  lemma {:induction false} RegisteredBanks(a: Arch, s: State, cs: seq<Chained>)
    ensures RegisterAll(s, cs) == s.(chain := if cs == [] then s.chain
                                              else Some((if s.chain.Some? then s.chain.value else []) + cs))
    decreases |cs|
  {
    if cs != [] {
      RegisteredBanks(a, Register(s, cs[0]), cs[1..]);
      var q := if s.chain.Some? then s.chain.value else [];
      assert (q + [cs[0]]) + cs[1..] == q + cs;
      assert cs[1..] == [] ==> q + [cs[0]] == q + cs;
    }
  }

  /** The trap instruction: the number comes from its register, and the next instruction is due. */
  function Trap(a: Arch, s: State): State
    requires Banks(a, s)
  {
    var p := s.process[a.slot(SysargNum) := s.process[a.slot(a.trap)]];
    s.(process := p[a.slot(InstrPointer) := s.process[a.slot(InstrPointer)] + a.trapSize])
  }

  /** The syscall that the kernel is about to execute. */
  function Requested(a: Arch, p: Bank): Chained
    requires Fits(a, p)
  {
    Chained(p[a.slot(SysargNum)], [p[a.slot(Sysarg1)], p[a.slot(Sysarg2)], p[a.slot(Sysarg3)],
                                   p[a.slot(Sysarg4)], p[a.slot(Sysarg5)], p[a.slot(Sysarg6)]])
  }

  /** The enter stage of a chained syscall. */
  function EnterChained(a: Arch, s: State): State
    requires Banks(a, s)
  {
    Push(a, Fetch(s).(restore := false))
  }

  /** Between the enter and the exit stage of the request or of a chained syscall. */
  ghost predicate Ready(a: Arch, s: State, asked: Bank) {
    && SoundArch(a) && Banks(a, s) && Fits(a, asked) && s.original == asked
    && s.process[a.slot(InstrPointer)] == asked[a.slot(InstrPointer)] >= a.trapSize
    && (s.chain.Some? ==> s.changed && forall c :: c in s.chain.value ==> |c.args| == 6)
    && (!s.changed ==> forall r :: GivenBack(a, r) ==> s.process[a.slot(r)] == asked[a.slot(r)])
  }

  function Queue(s: State): seq<Chained> {
    if s.chain.Some? then s.chain.value else []
  }

  // ----- One stage after the other -----

  lemma EnterIsReady(a: Arch, s: State, pokes: seq<(Reg, Word)>)
    requires SoundArch(a) && Banks(a, s) && s.process[a.slot(InstrPointer)] >= a.trapSize
    requires s.chain.None? && s.forced.None? && forall i :: 0 <= i < |pokes| ==> pokes[i].0 != InstrPointer
    ensures Ready(a, Enter(a, s, pokes), s.process) && Enter(a, s, pokes).chain.None?
    ensures Enter(a, s, pokes).forced.None?
  {
    var t := SaveOriginal(Fetch(s).(restore := false));
    PokeAllKeeps(a, t, pokes, a.slot(InstrPointer));
    PokeAllChanges(a, t, pokes);
  }

  /** What the stage before the chain keeps. */
  lemma BeforeChainKeeps(a: Arch, s: State, asked: Bank, act: Act)
    requires Ready(a, s, asked) && SoundAct(act)
    ensures var t := BeforeChain(a, Execute(a, s, act.result), act);
      && t.restore && t.original == asked && t.current[a.slot(InstrPointer)] == asked[a.slot(InstrPointer)]
      && t.chain == (if act.register == [] then s.chain else Some(Queue(s) + act.register))
      && t.forced == (if act.force.Some? then act.force else s.forced)
      && (forall c :: c in Queue(t) ==> |c.args| == 6)
      && (s.chain.Some? ==> t.current[a.slot(SysargResult)] == act.result && t.changed)
      && (!t.changed ==> t.current == t.process &&
                         forall r :: GivenBack(a, r) ==> t.current[a.slot(r)] == asked[a.slot(r)])
  {
    var x := Execute(a, s, act.result);
    var f := Fetch(x).(restore := true);
    PokeAllKeeps(a, f, act.pokes, a.slot(InstrPointer));
    PokeAllChanges(a, f, act.pokes);
    var g := if f.chain.None? then PokeAll(a, f, act.pokes) else f;
    var h := if act.force.Some? then g.(forced := act.force) else g;
    RegisteredBanks(a, h, act.register);
  }

  /** The state between BeforeChain and the chain. */
  ghost predicate AtChain(a: Arch, t: State, asked: Bank) {
    && SoundArch(a) && Banks(a, t) && Fits(a, asked) && t.restore && t.original == asked
    && t.current[a.slot(InstrPointer)] == asked[a.slot(InstrPointer)] >= a.trapSize
    && (forall c :: c in Queue(t) ==> |c.args| == 6)
    && (!t.changed ==> t.current == t.process &&
                       forall r :: GivenBack(a, r) ==> t.current[a.slot(r)] == asked[a.slot(r)])
  }

  /** The registers that a forged syscall is made of. */
  lemma ForgedRegisters(a: Arch, t: State, c: Chained, trapAt: Word, n: nat)
    requires SoundArch(a) && Fits(a, t.current) && |c.args| == 6 && n < 8
    ensures PokeAll(a, t, Forge(a, c, trapAt)).current[a.slot(Forge(a, c, trapAt)[n].0)] == Forge(a, c, trapAt)[n].1
  {
    var pokes := Forge(a, c, trapAt);
    forall i | n < i < 8
      ensures a.slot(pokes[i].0) != a.slot(pokes[n].0)
    {
      assert pokes[i].0 != pokes[n].0;
    }
    PokeAllGives(a, t, pokes, n);
  }

  /** The next chained syscall after its trap instruction. */
  function Chaining(a: Arch, t: State): State
    requires CanNext(a, t)
  {
    Trap(a, Push(a, Next(a, t)))
  }

  /**
   A chained syscall is executed with its own number and arguments, and the instruction pointer is
   that of the request again.
   */
  lemma ChainedRuns(a: Arch, t: State, asked: Bank)
    requires AtChain(a, t, asked) && t.chain.Some? && t.chain.value != []
    ensures CanNext(a, t)
    ensures Requested(a, Chaining(a, t).process) == t.chain.value[0]
    ensures Chaining(a, t).process[a.slot(InstrPointer)] == asked[a.slot(InstrPointer)]
    ensures Chaining(a, t).changed && Banks(a, Chaining(a, t)) && Chaining(a, t).original == asked
    ensures Chaining(a, t).chain == Some(t.chain.value[1..]) && Chaining(a, t).forced == t.forced
  {
    var n := Next(a, t);
    NextForges(a, t);
    TrapKeeps(a, n);
    assert Requested(a, Chaining(a, t).process) == Requested(a, n.current).(sysnum := n.current[a.slot(a.trap)]);
  }

  lemma NextForges(a: Arch, t: State)
    requires CanNext(a, t) && SoundArch(a) && t.chain.value != []
    ensures var n := Next(a, t);
      && n.current[a.slot(a.trap)] == t.chain.value[0].sysnum
      && Requested(a, n.current).args == t.chain.value[0].args
      && n.current[a.slot(InstrPointer)] == t.current[a.slot(InstrPointer)] - a.trapSize
      && n.changed && !n.restore && Banks(a, n) && n.original == t.original
      && n.chain == Some(t.chain.value[1..]) && n.forced == t.forced
  {
    var c := t.chain.value[0];
    var trapAt := t.current[a.slot(InstrPointer)] - a.trapSize;
    var u := t.(restore := false, chain := Some(t.chain.value[1..]));
    ForgedRegisters(a, u, c, trapAt, 7);
    PokeAllChanges(a, u, Forge(a, c, trapAt));
    ForgedArguments(a, u, c, trapAt);
    assert c.args == [c.args[0], c.args[1], c.args[2], c.args[3], c.args[4], c.args[5]];
  }

  lemma ForgedArguments(a: Arch, u: State, c: Chained, trapAt: Word)
    requires SoundArch(a) && Fits(a, u.current) && |c.args| == 6
    ensures var n := PokeAll(a, u, Forge(a, c, trapAt)).current;
      && n[a.slot(Sysarg1)] == c.args[0] && n[a.slot(Sysarg2)] == c.args[1] && n[a.slot(Sysarg3)] == c.args[2]
      && n[a.slot(Sysarg4)] == c.args[3] && n[a.slot(Sysarg5)] == c.args[4] && n[a.slot(Sysarg6)] == c.args[5]
      && n[a.slot(a.trap)] == c.sysnum
  {
    hide PokeAll, Forge;
    FirstForged(a, u, c, trapAt);
    LastForged(a, u, c, trapAt);
  }

  lemma FirstForged(a: Arch, u: State, c: Chained, trapAt: Word)
    requires SoundArch(a) && Fits(a, u.current) && |c.args| == 6
    ensures var n := PokeAll(a, u, Forge(a, c, trapAt)).current;
      && n[a.slot(Sysarg1)] == c.args[0] && n[a.slot(Sysarg2)] == c.args[1] && n[a.slot(Sysarg3)] == c.args[2]
      && n[a.slot(Sysarg4)] == c.args[3]
  {
    ForgedRegisters(a, u, c, trapAt, 0);
    ForgedRegisters(a, u, c, trapAt, 1);
    ForgedRegisters(a, u, c, trapAt, 2);
    ForgedRegisters(a, u, c, trapAt, 3);
  }

  lemma LastForged(a: Arch, u: State, c: Chained, trapAt: Word)
    requires SoundArch(a) && Fits(a, u.current) && |c.args| == 6
    ensures var n := PokeAll(a, u, Forge(a, c, trapAt)).current;
      && n[a.slot(Sysarg5)] == c.args[4] && n[a.slot(Sysarg6)] == c.args[5] && n[a.slot(a.trap)] == c.sysnum
  {
    ForgedRegisters(a, u, c, trapAt, 4);
    ForgedRegisters(a, u, c, trapAt, 5);
    ForgedRegisters(a, u, c, trapAt, 6);
  }

  /** The trap takes the number where the architecture puts it, and moves on by one instruction. */
  lemma TrapKeeps(a: Arch, n: State)
    requires SoundArch(a) && Banks(a, n) && n.changed && !n.restore
    ensures var p := Trap(a, Push(a, n)).process;
      && Fits(a, p)
      && p[a.slot(SysargNum)] == n.current[a.slot(a.trap)]
      && p[a.slot(InstrPointer)] == n.current[a.slot(InstrPointer)] + a.trapSize
      && p[a.slot(Sysarg1)] == n.current[a.slot(Sysarg1)] && p[a.slot(Sysarg2)] == n.current[a.slot(Sysarg2)]
      && p[a.slot(Sysarg3)] == n.current[a.slot(Sysarg3)] && p[a.slot(Sysarg4)] == n.current[a.slot(Sysarg4)]
      && p[a.slot(Sysarg5)] == n.current[a.slot(Sysarg5)] && p[a.slot(Sysarg6)] == n.current[a.slot(Sysarg6)]
  {
    assert Push(a, n).process == n.current;
  }

  /** The last stage: the registers of the request are back, and the result is the one to give. */
  lemma LastStage(a: Arch, t: State, asked: Bank)
    requires AtChain(a, t, asked) && Queue(t) == []
    ensures t.chain.Some? ==> CanNext(a, t)
    ensures var f := Push(a, if t.chain.Some? then Next(a, t) else t);
      && Banks(a, f) && f.chain.None? && f.original == asked
      && f.process[a.slot(InstrPointer)] == asked[a.slot(InstrPointer)]
      && (forall r :: GivenBack(a, r) ==> f.process[a.slot(r)] == asked[a.slot(r)])
      && f.process[a.slot(SysargResult)] ==
           (if t.chain.Some? && t.forced.Some? then t.forced.value else t.current[a.slot(SysargResult)])
      && f.forced == (if t.chain.Some? then None else t.forced)
  {
    hide Restore, RestoreOne, PokeAll, Forge, GivenBack;
    var u := if t.chain.Some? then Next(a, t) else t;
    assert u.current[a.slot(InstrPointer)] == t.current[a.slot(InstrPointer)];
    if u.changed {
      forall r
        ensures GivenBack(a, r) ==> Restore(a, u.current, asked, RESTORED)[a.slot(r)] == asked[a.slot(r)]
      {
        RestoredRegisters(a, u.current, asked, r);
      }
      RestoredRegisters(a, u.current, asked, InstrPointer);
      RestoredRegisters(a, u.current, asked, SysargResult);
    }
  }

  // ----- Whole runs -----

  /** What a run comes to: the last state, and the chained syscalls that the kernel executed, in order. */
  datatype Outcome = Outcome(s: State, executed: seq<Chained>)

  function ChainAfter(a: Arch, s: State, act: Act): State
    requires Banks(a, s)
  {
    BeforeChain(a, Execute(a, s, act.result), act)
  }

  /** The end of an exit stage after which no chained syscall is left. */
  ghost function Final(a: Arch, s: State, asked: Bank, act: Act): State
    requires Ready(a, s, asked) && SoundAct(act) && Queue(ChainAfter(a, s, act)) == []
  {
    var t := ChainAfter(a, s, act);
    ReachesChain(a, s, asked, act);
    LastStage(a, t, asked);
    Push(a, if t.chain.Some? then Next(a, t) else t)
  }

  /** The enter stage of the chained syscall that follows an exit stage. */
  ghost function Following(a: Arch, s: State, asked: Bank, act: Act): (e: State)
    requires Ready(a, s, asked) && SoundAct(act) && Queue(ChainAfter(a, s, act)) != []
    ensures Ready(a, e, asked)
  {
    var t := ChainAfter(a, s, act);
    ReachesChain(a, s, asked, act);
    ChainedRuns(a, t, asked);
    ChainedIsReady(a, Chaining(a, t), asked);
    EnterChained(a, Chaining(a, t))
  }

  /** The chained syscall that the kernel is about to execute then. */
  ghost function Executing(a: Arch, s: State, asked: Bank, act: Act): Chained
    requires Ready(a, s, asked) && SoundAct(act) && Queue(ChainAfter(a, s, act)) != []
  {
    var t := ChainAfter(a, s, act);
    ReachesChain(a, s, asked, act);
    ChainedRuns(a, t, asked);
    Requested(a, Chaining(a, t).process)
  }

  ghost predicate SoundActs(acts: seq<Act>) {
    forall i {:trigger SoundAct(acts[i])} :: 0 <= i < |acts| ==> SoundAct(acts[i])
  }

  lemma SoundTail(acts: seq<Act>)
    requires acts != [] && SoundActs(acts)
    ensures SoundAct(acts[0]) && SoundActs(acts[1..])
  {
    assert SoundAct(acts[0]);
    forall i | 0 <= i < |acts[1..]|
      ensures SoundAct(acts[1..][i])
    {
      assert SoundAct(acts[i + 1]);
    }
  }

  /**
   The exit stages, one per act, from a state between enter and exit.  The run is complete when the
   last act leaves no chain.
   */
  ghost function Exits(a: Arch, s: State, asked: Bank, acts: seq<Act>): (r: Option<Outcome>)
    requires Ready(a, s, asked) && SoundActs(acts)
    ensures r.Some? ==> acts != []
    decreases |acts|
  {
    if acts == [] then None
    else
      SoundTail(acts);
      if Queue(ChainAfter(a, s, acts[0])) == [] then
        if |acts| == 1 then Some(Outcome(Final(a, s, asked, acts[0]), [])) else None
      else
        match Exits(a, Following(a, s, asked, acts[0]), asked, acts[1..])
        case None => None
        case Some(o) => Some(Outcome(o.s, [Executing(a, s, asked, acts[0])] + o.executed))
  }

  /** The result that a tracee gets after chained syscalls. */
  function ResultOf(before: Option<Word>, acts: seq<Act>): Word
    requires acts != []
  {
    if Forced(before, acts).Some? then Forced(before, acts).value else acts[|acts| - 1].result
  }

  /** The facts about a last stage. */
  lemma FinalIsBack(a: Arch, s: State, asked: Bank, act: Act)
    requires Ready(a, s, asked) && SoundAct(act) && Queue(ChainAfter(a, s, act)) == []
    ensures act.register == [] && Queue(s) == []
    ensures GaveBack(a, Final(a, s, asked, act), asked)
    ensures s.chain.Some? ==> Final(a, s, asked, act).process[a.slot(SysargResult)] == ResultOf(s.forced, [act])
    ensures s.chain.Some? ==> Final(a, s, asked, act).forced == None
  {
    BeforeChainKeeps(a, s, asked, act);
    ReachesChain(a, s, asked, act);
    LastStage(a, ChainAfter(a, s, act), asked);
    EmptySum(Queue(s), act.register);
    ResultOfOne(s.forced, act);
  }

  lemma ResultOfOne(before: Option<Word>, act: Act)
    ensures ResultOf(before, [act]) == if act.force.Some? then act.force.value
                                       else if before.Some? then before.value
                                       else act.result
  {
    var forced := if act.force.Some? then act.force else before;
    assert [act][1..] == [] && Forced(forced, []) == forced;
    assert Forced(before, [act]) == Forced(forced, [act][1..]);
  }

  lemma ResultOfMore(before: Option<Word>, acts: seq<Act>)
    requires |acts| > 1
    ensures ResultOf(before, acts) == ResultOf(if acts[0].force.Some? then acts[0].force else before, acts[1..])
  {
  }

  lemma EmptySum<T>(a: seq<T>, b: seq<T>)
    ensures a + b == [] ==> a == [] && b == []
  {
    assert |a + b| == |a| + |b|;
  }

  lemma Shift<T>(c: T, q: seq<T>, later: seq<T>, a: seq<T>, b: seq<T>)
    requires [c] + q == a + b
    ensures [c] + (q + later) == a + (b + later)
  {
    assert [c] + (q + later) == ([c] + q) + later;
    assert (a + b) + later == a + (b + later);
  }

  lemma AddNothing<T>(s: seq<T>)
    ensures s + [] == s
  {
  }

  /** The facts about a stage that another one follows. */
  lemma FollowingGoesOn(a: Arch, s: State, asked: Bank, act: Act)
    requires Ready(a, s, asked) && SoundAct(act) && Queue(ChainAfter(a, s, act)) != []
    ensures var e := Following(a, s, asked, act);
      && e.chain.Some? && [Executing(a, s, asked, act)] + Queue(e) == Queue(s) + act.register
      && e.forced == (if act.force.Some? then act.force else s.forced)
  {
    BeforeChainKeeps(a, s, asked, act);
    var t := ChainAfter(a, s, act);
    ChainedRuns(a, t, asked);
    ChainedIsReady(a, Chaining(a, t), asked);
    AddNothing(Queue(s));
    HeadAndTail(Queue(t), []);
  }

  /** ORIGINAL is that of the request, the chain is over, and the registers are back. */
  ghost predicate GaveBack(a: Arch, s: State, asked: Bank) {
    && Banks(a, s) && SoundArch(a) && Fits(a, asked) && s.original == asked && s.chain.None?
    && s.process[a.slot(InstrPointer)] == asked[a.slot(InstrPointer)]
    && (forall r :: GivenBack(a, r) ==> s.process[a.slot(r)] == asked[a.slot(r)])
  }

  lemma ReachesChain(a: Arch, s: State, asked: Bank, act: Act)
    requires Ready(a, s, asked) && SoundAct(act)
    ensures AtChain(a, BeforeChain(a, Execute(a, s, act.result), act), asked)
  {
    BeforeChainKeeps(a, s, asked, act);
  }

  lemma ChainedIsReady(a: Arch, s: State, asked: Bank)
    requires SoundArch(a) && Banks(a, s) && Fits(a, asked) && s.original == asked && s.changed
    requires s.process[a.slot(InstrPointer)] == asked[a.slot(InstrPointer)] >= a.trapSize
    requires s.chain.Some? && forall c :: c in s.chain.value ==> |c.args| == 6
    ensures Ready(a, EnterChained(a, s), asked)
    ensures EnterChained(a, s).chain == s.chain && EnterChained(a, s).forced == s.forced
  {
  }

  /** Everything that the acts register. */
  function Registered(acts: seq<Act>): seq<Chained> {
    if acts == [] then [] else acts[0].register + Registered(acts[1..])
  }

  /** The last result that an act forces, or the one that was forced before. */
  function Forced(before: Option<Word>, acts: seq<Act>): Option<Word>
    decreases |acts|
  {
    if acts == [] then before else Forced(if acts[0].force.Some? then acts[0].force else before, acts[1..])
  }

  /** The chained syscalls are executed in the order of their registration, after those queued before. */
  lemma {:induction false} ExecutedInOrder(a: Arch, s: State, asked: Bank, acts: seq<Act>)
    requires Ready(a, s, asked) && SoundActs(acts) && Exits(a, s, asked, acts).Some?
    ensures Exits(a, s, asked, acts).value.executed == Queue(s) + Registered(acts)
    decreases |acts|
  {
    SoundTail(acts);
    if Queue(ChainAfter(a, s, acts[0])) == [] {
      FinalIsBack(a, s, asked, acts[0]);
      assert acts[1..] == [] && Registered(acts) == [];
    } else {
      FollowingGoesOn(a, s, asked, acts[0]);
      ExecutedInOrder(a, Following(a, s, asked, acts[0]), asked, acts[1..]);
      Shift(Executing(a, s, asked, acts[0]), Queue(Following(a, s, asked, acts[0])), Registered(acts[1..]),
            Queue(s), acts[0].register);
    }
  }

  /**
   When the exit stages are over, ORIGINAL is what it was, and the registers of the request are back,
   but for one that is where the result is.
   */
  lemma {:induction false} ExitsGiveBack(a: Arch, s: State, asked: Bank, acts: seq<Act>)
    requires Ready(a, s, asked) && SoundActs(acts) && Exits(a, s, asked, acts).Some?
    ensures GaveBack(a, Exits(a, s, asked, acts).value.s, asked)
    decreases |acts|
  {
    SoundTail(acts);
    if Queue(ChainAfter(a, s, acts[0])) == [] {
      FinalIsBack(a, s, asked, acts[0]);
    } else {
      ExitsGiveBack(a, Following(a, s, asked, acts[0]), asked, acts[1..]);
    }
  }

  lemma FinalResult(a: Arch, s: State, asked: Bank, act: Act)
    requires Ready(a, s, asked) && SoundAct(act) && Queue(ChainAfter(a, s, act)) == []
    ensures act.register == [] && a.slot(SysargResult) < a.slots && Banks(a, Final(a, s, asked, act))
    ensures s.chain.Some? ==> Final(a, s, asked, act).process[a.slot(SysargResult)] == ResultOf(s.forced, [act])
    ensures s.chain.Some? ==> Final(a, s, asked, act).forced == None
  {
    FinalIsBack(a, s, asked, act);
  }

  lemma FollowingIsChained(a: Arch, s: State, asked: Bank, act: Act)
    requires Ready(a, s, asked) && SoundAct(act) && Queue(ChainAfter(a, s, act)) != []
    ensures Following(a, s, asked, act).chain.Some?
    ensures Following(a, s, asked, act).forced == (if act.force.Some? then act.force else s.forced)
  {
    FollowingGoesOn(a, s, asked, act);
  }

  /**
   After chained syscalls the result is the forced one if there is one, else that of the last of them, and
   nothing is forced any more.
   */
  lemma {:induction false} ChainGivesResult(a: Arch, s: State, asked: Bank, acts: seq<Act>)
    requires Ready(a, s, asked) && SoundActs(acts) && Exits(a, s, asked, acts).Some?
    requires s.chain.Some? || Registered(acts) != []
    ensures Banks(a, Exits(a, s, asked, acts).value.s) && a.slot(SysargResult) < a.slots
    ensures Exits(a, s, asked, acts).value.s.process[a.slot(SysargResult)] == ResultOf(s.forced, acts)
    ensures Exits(a, s, asked, acts).value.s.forced == None
    decreases |acts|
  {
    hide SoundAct, ResultOf, Following, Executing, Final;
    SoundTail(acts);
    if Queue(ChainAfter(a, s, acts[0])) == [] {
      assert acts == [acts[0]] && acts[1..] == [] && Registered(acts) == acts[0].register;
      FinalResult(a, s, asked, acts[0]);
    } else {
      FollowingIsChained(a, s, asked, acts[0]);
      ChainGivesResult(a, Following(a, s, asked, acts[0]), asked, acts[1..]);
      ResultOfMore(s.forced, acts);
    }
  }

  /** The same from the request on, when its exit stage is hit. */
  lemma RequestIsGivenBack(a: Arch, s: State, pokes: seq<(Reg, Word)>, acts: seq<Act>)
    requires SoundArch(a) && Banks(a, s) && s.process[a.slot(InstrPointer)] >= a.trapSize
    requires s.chain.None? && s.forced.None? && forall i :: 0 <= i < |pokes| ==> pokes[i].0 != InstrPointer
    requires SoundActs(acts)
    ensures Ready(a, Enter(a, s, pokes), s.process)
    ensures Exits(a, Enter(a, s, pokes), s.process, acts).Some? ==>
      && Exits(a, Enter(a, s, pokes), s.process, acts).value.executed == Registered(acts)
      && GaveBack(a, Exits(a, Enter(a, s, pokes), s.process, acts).value.s, s.process)
      && (Registered(acts) != [] ==>
            && Exits(a, Enter(a, s, pokes), s.process, acts).value.s.process[a.slot(SysargResult)] == ResultOf(None, acts)
            && Exits(a, Enter(a, s, pokes), s.process, acts).value.s.forced == None)
  {
    EnterIsReady(a, s, pokes);
    var e := Enter(a, s, pokes);
    if Exits(a, e, s.process, acts).Some? {
      ExecutedInOrder(a, e, s.process, acts);
      ExitsGiveBack(a, e, s.process, acts);
      assert [] + Registered(acts) == Registered(acts);
      if Registered(acts) != [] {
        ChainGivesResult(a, e, s.process, acts);
      }
    }
  }

  // ----- Requests that chain nothing -----

  /** A register after some pokes: what the last poke of it gives, or what it was. */
  ghost predicate Poked(a: Arch, before: Bank, after: Bank, pokes: seq<(Reg, Word)>, k: nat)
    requires k < |before| && k < |after|
  {
    && (NotPoked(a, pokes, 0, k) ==> after[k] == before[k])
    && forall n :: 0 <= n < |pokes| && a.slot(pokes[n].0) == k && NotPoked(a, pokes, n + 1, k) ==> after[k] == pokes[n].1
  }

  /** From the `n`th on. */
  predicate NotPoked(a: Arch, pokes: seq<(Reg, Word)>, n: nat, k: nat) {
    forall i :: n <= i < |pokes| ==> a.slot(pokes[i].0) != k
  }

  lemma PokesAreMade(a: Arch, s: State, pokes: seq<(Reg, Word)>, k: nat)
    requires Fits(a, s.current) && k < a.slots
    ensures Poked(a, s.current, PokeAll(a, s, pokes).current, pokes, k)
  {
    if NotPoked(a, pokes, 0, k) {
      PokeAllKeeps(a, s, pokes, k);
    }
    forall n | 0 <= n < |pokes| && a.slot(pokes[n].0) == k && NotPoked(a, pokes, n + 1, k)
      ensures PokeAll(a, s, pokes).current[k] == pokes[n].1
    {
      PokeAllGives(a, s, pokes, n);
    }
  }

  /** The kernel executes the request with the registers that the translation of its enter poked, and no others. */
  lemma EnterShowsPokes(a: Arch, s: State, pokes: seq<(Reg, Word)>, k: nat)
    requires Banks(a, s) && k < a.slots
    ensures Poked(a, s.process, Enter(a, s, pokes).process, pokes, k)
  {
    var t := SaveOriginal(Fetch(s).(restore := false));
    PokesAreMade(a, t, pokes, k);
    PokeAllChanges(a, t, pokes);
  }

  lemma FinalUnchained(a: Arch, s: State, asked: Bank, act: Act)
    requires Ready(a, s, asked) && SoundAct(act) && s.chain.None? && act.register == []
    ensures Queue(ChainAfter(a, s, act)) == [] && a.slot(SysargResult) < a.slots
    ensures Banks(a, Final(a, s, asked, act))
    ensures Final(a, s, asked, act).process[a.slot(SysargResult)] == ChainAfter(a, s, act).current[a.slot(SysargResult)]
  {
    hide BeforeChain, Push, PokeAll, SoundAct;
    BeforeChainKeeps(a, s, asked, act);
    ReachesChain(a, s, asked, act);
    LastStage(a, ChainAfter(a, s, act), asked);
  }

  /** The result of a request that chains nothing: that of the kernel, unless the translation of its exit pokes it. */
  lemma UnchainedResult(a: Arch, s: State, asked: Bank, act: Act)
    requires Ready(a, s, asked) && SoundAct(act) && s.chain.None? && act.register == []
    ensures SoundActs([act]) && Exits(a, s, asked, [act]).Some?
    ensures var f := Exits(a, s, asked, [act]).value;
      && f.executed == [] && Banks(a, f.s) && a.slot(SysargResult) < a.slots
      && Poked(a, Execute(a, s, act.result).process, f.s.process, act.pokes, a.slot(SysargResult))
  {
    hide Push, PokeAll, SoundAct, Final, Poked;
    FinalUnchained(a, s, asked, act);
    var f := Fetch(Execute(a, s, act.result)).(restore := true);
    PokesAreMade(a, f, act.pokes, a.slot(SysargResult));
    assert ChainAfter(a, s, act).current == PokeAll(a, f, act.pokes).current;
    SamePoked(a, f.current, PokeAll(a, f, act.pokes).current, Final(a, s, asked, act).process, act.pokes,
              a.slot(SysargResult));
    assert Exits(a, s, asked, [act]) == Some(Outcome(Final(a, s, asked, act), []));
  }

  lemma SamePoked(a: Arch, before: Bank, b: Bank, c: Bank, pokes: seq<(Reg, Word)>, k: nat)
    requires k < |before| && k < |b| && k < |c| && b[k] == c[k] && Poked(a, before, b, pokes, k)
    ensures Poked(a, before, c, pokes, k)
  {
  }

  // ----- The code -----

  function SixPokes(x: seq<Word>): seq<(Reg, Word)>
    requires |x| == 6
  {
    [(Sysarg1, x[0]), (Sysarg2, x[1]), (Sysarg3, x[2]), (Sysarg4, x[3]), (Sysarg5, x[4]), (Sysarg6, x[5])]
  }

  function PokeSix(a: Arch, s: State, args: seq<Word>): (t: State)
    requires Fits(a, s.current) && |args| == 6
    ensures Fits(a, t.current) && t == s.(current := t.current, changed := t.changed)
  {
    Poke(a, Poke(a, Poke(a, Poke(a, Poke(a, Poke(a, s, Sysarg1, args[0]), Sysarg2, args[1]), Sysarg3, args[2]),
      Sysarg4, args[3]), Sysarg5, args[4]), Sysarg6, args[5])
  }

  /** The register banks and the chain of a tracee. */
  class Tracee {
    const arch: Arch
    /** The real registers, behind ptrace. */
    var process: Bank
    var current: Bank
    var original: Bank
    var regsWereChanged: bool
    var restoreOriginalRegs: bool
    var syscalls: Option<seq<Chained>>
    var forceFinalResult: bool
    var finalResult: Word

    ghost function Now(): State
      reads this
    {
      State(process, current, original, regsWereChanged, restoreOriginalRegs, syscalls,
            if forceFinalResult then Some(finalResult) else None)
    }

    ghost predicate Valid()
      reads this
    {
      Banks(arch, Now())
    }

    constructor (a: Arch, b: Bank)
      requires SoundArch(a) && |b| == a.slots
      ensures Valid() && arch == a && Now() == State(b, b, b, false, false, None, None)
    {
      arch := a;
      process, current, original := b, b, b;
      regsWereChanged, restoreOriginalRegs := false, false;
      syscalls := None;
      forceFinalResult, finalResult := false, 0;
    }

    method PokeReg(r: Reg, v: Word)
      requires Valid()
      modifies this`current, this`regsWereChanged
      ensures Valid() && Now() == Poke(arch, old(Now()), r, v)
    {
      if current[arch.slot(r)] == v {
        return;
      }
      current := current[arch.slot(r) := v];
      regsWereChanged := true;
    }

    method SaveOriginalRegs()
      requires Valid()
      modifies this`original, this`regsWereChanged
      ensures Valid() && Now() == SaveOriginal(old(Now()))
    {
      regsWereChanged := false;
      original := current;
    }

    /** The registers that are restored at the very end of a syscall. */
    method RestoreRegs()
      requires Valid()
      modifies this`current
      ensures Valid() && current == Restore(arch, old(current), original, RESTORED)
    {
      ghost var before := current;
      var i := 0;
      assert RESTORED[0..] == RESTORED;
      while i < |RESTORED|
        invariant 0 <= i <= |RESTORED| && Fits(arch, current)
        invariant Restore(arch, current, original, RESTORED[i..]) == Restore(arch, before, original, RESTORED)
      {
        assert RESTORED[i..][1..] == RESTORED[i + 1..];
        var r := RESTORED[i];
        if arch.slot(SysargResult) != arch.slot(r) {
          current := current[arch.slot(r) := original[arch.slot(r)]];
        }
        i := i + 1;
      }
    }

    method PushSpecificRegs()
      requires Valid()
      modifies this`current, this`process
      ensures Valid() && Now() == Push(arch, old(Now()))
    {
      if regsWereChanged {
        if restoreOriginalRegs {
          RestoreRegs();
        }
        process := current;
      }
    }

    method RegisterChainedSyscall(c: Chained)
      requires Valid()
      modifies this`syscalls
      ensures Valid() && Now() == Register(old(Now()), c)
    {
      if syscalls.None? {
        syscalls := Some([]);
      }
      syscalls := Some(syscalls.value + [c]);
    }

    method ForceChainFinalResult(forced: Word)
      requires Valid()
      modifies this`forceFinalResult, this`finalResult
      ensures Valid() && Now() == old(Now()).(forced := Some(forced))
    {
      forceFinalResult := true;
      finalResult := forced;
    }

    method ChainNextSyscall()
      requires Valid() && SoundArch(arch) && CanNext(arch, Now())
      modifies this
      ensures Valid() && Now() == Next(arch, old(Now()))
    {
      if syscalls.value == [] {
        syscalls := None;
        if forceFinalResult {
          PokeReg(SysargResult, finalResult);
        }
        forceFinalResult := false;
        finalResult := 0;
        return;
      }
      restoreOriginalRegs := false;
      var syscall := syscalls.value[0];
      syscalls := Some(syscalls.value[1..]);
      ForgeSyscall(syscall);
    }

    method ForgeSyscall(syscall: Chained)
      requires Valid() && SoundArch(arch) && |syscall.args| == 6 && current[arch.slot(InstrPointer)] >= arch.trapSize
      modifies this`current, this`regsWereChanged
      ensures Valid()
      ensures Now() ==
        PokeAll(arch, old(Now()), Forge(arch, syscall, old(current[arch.slot(InstrPointer)]) - arch.trapSize))
    {
      hide Poke, PokeAll, Forge;
      ForgedInTurn(arch, Now(), syscall, current[arch.slot(InstrPointer)] - arch.trapSize);
      PokeArguments(syscall.args);
      PokeReg(arch.trap, syscall.sysnum);
      PokeReg(InstrPointer, current[arch.slot(InstrPointer)] - arch.trapSize);
    }

    method PokeArguments(args: seq<Word>)
      requires Valid() && |args| == 6
      modifies this`current, this`regsWereChanged
      ensures Valid() && Now() == PokeAll(arch, old(Now()), SixPokes(args))
    {
      SixInTurn(arch, Now(), args);
      PokeReg(Sysarg1, args[0]);
      PokeReg(Sysarg2, args[1]);
      PokeReg(Sysarg3, args[2]);
      PokeReg(Sysarg4, args[3]);
      PokeReg(Sysarg5, args[4]);
      PokeReg(Sysarg6, args[5]);
    }
  }

  lemma {:induction false} PokeAllThenOne(a: Arch, s: State, pokes: seq<(Reg, Word)>, r: Reg, v: Word)
    requires Fits(a, s.current)
    ensures PokeAll(a, s, pokes + [(r, v)]) == Poke(a, PokeAll(a, s, pokes), r, v)
    decreases |pokes|
  {
    if pokes == [] {
      assert pokes + [(r, v)] == [(r, v)] && [(r, v)][1..] == [];
    } else {
      assert (pokes + [(r, v)])[1..] == pokes[1..] + [(r, v)];
      PokeAllThenOne(a, Poke(a, s, pokes[0].0, pokes[0].1), pokes[1..], r, v);
    }
  }

  /** The pokes of the six arguments one after the other. */
  lemma SixInTurn(a: Arch, s: State, x: seq<Word>)
    requires Fits(a, s.current) && |x| == 6
    ensures PokeAll(a, s, SixPokes(x)) == PokeSix(a, s, x)
  {
    var p1: seq<(Reg, Word)> := [(Sysarg1, x[0])];
    var p2 := p1 + [(Sysarg2, x[1])];
    var p3 := p2 + [(Sysarg3, x[2])];
    var p4 := p3 + [(Sysarg4, x[3])];
    var p5 := p4 + [(Sysarg5, x[4])];
    PokeAllThenOne(a, s, [], Sysarg1, x[0]);
    assert [] + p1 == p1;
    PokeAllThenOne(a, s, p1, Sysarg2, x[1]);
    PokeAllThenOne(a, s, p2, Sysarg3, x[2]);
    PokeAllThenOne(a, s, p3, Sysarg4, x[3]);
    PokeAllThenOne(a, s, p4, Sysarg5, x[4]);
    PokeAllThenOne(a, s, p5, Sysarg6, x[5]);
    assert p5 + [(Sysarg6, x[5])] == SixPokes(x);
  }

  /** The pokes of a forged syscall one by one; the instruction pointer is read before it is moved. */
  lemma ForgedInTurn(a: Arch, s: State, c: Chained, trapAt: Word)
    requires SoundArch(a) && Fits(a, s.current) && |c.args| == 6
    ensures var u := Poke(a, PokeAll(a, s, SixPokes(c.args)), a.trap, c.sysnum);
      && u.current[a.slot(InstrPointer)] == s.current[a.slot(InstrPointer)]
      && PokeAll(a, s, Forge(a, c, trapAt)) == Poke(a, u, InstrPointer, trapAt)
  {
    var six := SixPokes(c.args);
    PokeAllThenOne(a, s, six, a.trap, c.sysnum);
    PokeAllThenOne(a, s, six + [(a.trap, c.sysnum)], InstrPointer, trapAt);
    assert six + [(a.trap, c.sysnum)] + [(InstrPointer, trapAt)] == Forge(a, c, trapAt);
    var seven := six + [(a.trap, c.sysnum)];
    forall i | 0 <= i < |seven|
      ensures a.slot(seven[i].0) != a.slot(InstrPointer)
    {
      assert seven[i].0 != InstrPointer;
    }
    PokeAllKeeps(a, s, seven, a.slot(InstrPointer));
  }
}
