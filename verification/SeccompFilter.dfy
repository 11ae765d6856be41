/**
 Emission of the filter program (syscall/seccomp.c:57-309) and the proof that it means the list of
 filtered syscalls.
 */
module SeccompFilter {
  import opened Wrappers
  import opened Seccomp

  /** One handled architecture with its ABIs. */
  datatype Arch = Arch(value: nat, abis: seq<Abi>)

  datatype Traced = Traced(number: nat, flags: nat)

  const LENGTH_TRACE_SYSCALL: nat := 2
  const LENGTH_END_SECTION: nat := 1
  const LENGTH_START_SECTION: nat := 4

  // ---------------------------------------------------------------------
  // What must be traced
  // ---------------------------------------------------------------------

  /** The first `k` filtered syscalls that the ABI has. */
  function TracedBy(abi: Abi, sysnums: seq<FilteredSysnum>, k: nat, avoider: nat): seq<Traced>
    requires k <= |sysnums|
  {
    if k == 0 then []
    else
      var number := Number(abi, sysnums[k - 1].value, avoider);
      TracedBy(abi, sysnums, k - 1, avoider)
        + (if number == avoider then [] else [Traced(number, sysnums[k - 1].flags)])
  }

  function TracedByAll(abis: seq<Abi>, sysnums: seq<FilteredSysnum>, j: nat, avoider: nat): seq<Traced>
    requires j <= |abis|
  {
    if j == 0 then []
    else TracedByAll(abis, sysnums, j - 1, avoider) + TracedBy(abis[j - 1], sysnums, Entries(sysnums), avoider)
  }

  // ---------------------------------------------------------------------
  // The emitted program, section by section
  // ---------------------------------------------------------------------

  /** `SECCOMP_RET_TRACE + flag` in the 32 bits of a statement. */
  function TraceValue(flags: nat): nat {
    (SECCOMP_RET_TRACE + flags) % 0x1_0000_0000
  }

  function TraceCode(list: seq<Traced>): (r: seq<Insn>)
    ensures |r| == LENGTH_TRACE_SYSCALL * |list|
  {
    if list == [] then []
    else
      var last := list[|list| - 1];
      TraceCode(list[..|list| - 1]) + [JumpIfEqual(last.number, 0, 1), Return(TraceValue(last.flags))]
  }

  function StartCode(arch: nat, count: nat): seq<Insn> {
    [Load(ARCH_OFFSET), JumpIfEqual(arch, 1, 0),
     Jump(LENGTH_END_SECTION + count * LENGTH_TRACE_SYSCALL + 1), Load(NR_OFFSET)]
  }

  function SectionCode(arch: Arch, sysnums: seq<FilteredSysnum>, avoider: nat): seq<Insn> {
    var list := TracedByAll(arch.abis, sysnums, |arch.abis|, avoider);
    StartCode(arch.value, |list|) + TraceCode(list) + [Return(SECCOMP_RET_ALLOW)]
  }

  function SectionsCode(archs: seq<Arch>, sysnums: seq<FilteredSysnum>, i: nat, avoider: nat): seq<Insn>
    requires i <= |archs|
  {
    if i == 0 then []
    else SectionsCode(archs, sysnums, i - 1, avoider) + SectionCode(archs[i - 1], sysnums, avoider)
  }

  function ProgramCode(archs: seq<Arch>, sysnums: seq<FilteredSysnum>, avoider: nat): seq<Insn> {
    SectionsCode(archs, sysnums, |archs|, avoider) + [Return(SECCOMP_RET_KILL)]
  }

  // ---------------------------------------------------------------------
  // What the program answers
  // ---------------------------------------------------------------------

  /** The first entry for `nr`, else ALLOW. */
  function AnswerOf(list: seq<Traced>, nr: nat): nat {
    if list == [] then SECCOMP_RET_ALLOW
    else if list[0].number == nr then TraceValue(list[0].flags)
    else AnswerOf(list[1..], nr)
  }

  /** The first section for the architecture of the caller decides. */
  function Answer(archs: seq<Arch>, sysnums: seq<FilteredSysnum>, data: Data, i: nat, avoider: nat): nat
    requires i <= |archs|
    decreases |archs| - i
  {
    if i == |archs| then SECCOMP_RET_KILL
    else if archs[i].value == data.arch then
      AnswerOf(TracedByAll(archs[i].abis, sysnums, |archs[i].abis|, avoider), data.nr)
    else Answer(archs, sysnums, data, i + 1, avoider)
  }

  /** `code` sits in `program` at `pc`. */
  predicate Sits(program: seq<Insn>, pc: nat, code: seq<Insn>) {
    pc + |code| <= |program| && program[pc..pc + |code|] == code
  }

  lemma SitsPart(program: seq<Insn>, pc: nat, a: seq<Insn>, b: seq<Insn>)
    requires Sits(program, pc, a + b)
    ensures Sits(program, pc, a) && Sits(program, pc + |a|, b)
  {
    assert program[pc..pc + |a + b|][..|a|] == a;
    assert program[pc..pc + |a + b|][|a|..] == b;
  }

  lemma SitsAt(program: seq<Insn>, pc: nat, code: seq<Insn>, k: nat)
    requires Sits(program, pc, code) && k < |code|
    ensures program[pc + k] == code[k]
  {
    assert program[pc..pc + |code|][k] == code[k];
  }

  lemma {:induction false} TraceCodeCons(list: seq<Traced>)
    requires list != []
    ensures TraceCode(list)
         == [JumpIfEqual(list[0].number, 0, 1), Return(TraceValue(list[0].flags))] + TraceCode(list[1..])
  {
    if |list| == 1 {
      assert list[..0] == [] && list[1..] == [];
    } else {
      var front := list[..|list| - 1];
      TraceCodeCons(front);
      assert front[1..] == list[1..][..|list| - 2];
    }
  }

  /** The trace statements followed by ALLOW give the answer of the list. */
  lemma {:induction false} TraceCodeAnswers(program: seq<Insn>, pc: nat, list: seq<Traced>, data: Data)
    requires Sits(program, pc, TraceCode(list) + [Return(SECCOMP_RET_ALLOW)])
    ensures Execute(program, pc, data.nr, data) == Some(AnswerOf(list, data.nr))
    decreases |list|
  {
    if list == [] {
      SitsAt(program, pc, [Return(SECCOMP_RET_ALLOW)], 0) by {
        assert TraceCode(list) + [Return(SECCOMP_RET_ALLOW)] == [Return(SECCOMP_RET_ALLOW)];
      }
    } else {
      var pair := [JumpIfEqual(list[0].number, 0, 1), Return(TraceValue(list[0].flags))];
      var rest := TraceCode(list[1..]) + [Return(SECCOMP_RET_ALLOW)];
      TraceCodeCons(list);
      assert TraceCode(list) + [Return(SECCOMP_RET_ALLOW)] == pair + rest;
      SitsPart(program, pc, pair, rest);
      SitsAt(program, pc, pair, 0);
      SitsAt(program, pc, pair, 1);
      TraceCodeAnswers(program, pc + 2, list[1..], data);
    }
  }

  lemma SectionStart(program: seq<Insn>, pc: nat, arch: Arch, sysnums: seq<FilteredSysnum>, avoider: nat)
    requires Sits(program, pc, SectionCode(arch, sysnums, avoider))
    ensures var list := TracedByAll(arch.abis, sysnums, |arch.abis|, avoider);
      && |SectionCode(arch, sysnums, avoider)| == 5 + 2 * |list|
      && Sits(program, pc + 4, TraceCode(list) + [Return(SECCOMP_RET_ALLOW)])
      && program[pc] == Load(ARCH_OFFSET) && program[pc + 1] == JumpIfEqual(arch.value, 1, 0)
      && program[pc + 2] == Jump(2 * |list| + 2) && program[pc + 3] == Load(NR_OFFSET)
  {
    var list := TracedByAll(arch.abis, sysnums, |arch.abis|, avoider);
    var start := StartCode(arch.value, |list|);
    var rest := TraceCode(list) + [Return(SECCOMP_RET_ALLOW)];
    assert SectionCode(arch, sysnums, avoider) == start + rest;
    SitsPart(program, pc, start, rest);
    SitsAt(program, pc, start, 0);
    SitsAt(program, pc, start, 1);
    SitsAt(program, pc, start, 2);
    SitsAt(program, pc, start, 3);
  }

  /** A section answers for its architecture. */
  lemma SectionHandles(program: seq<Insn>, pc: nat, acc: nat, arch: Arch, sysnums: seq<FilteredSysnum>,
                       data: Data, avoider: nat)
    requires Sits(program, pc, SectionCode(arch, sysnums, avoider)) && arch.value == data.arch
    ensures Execute(program, pc, acc, data)
         == Some(AnswerOf(TracedByAll(arch.abis, sysnums, |arch.abis|, avoider), data.nr))
  {
    SectionStart(program, pc, arch, sysnums, avoider);
    TraceCodeAnswers(program, pc + 4, TracedByAll(arch.abis, sysnums, |arch.abis|, avoider), data);
    assert Execute(program, pc, acc, data) == Execute(program, pc + 1, data.arch, data);
    assert Execute(program, pc + 1, data.arch, data) == Execute(program, pc + 3, data.arch, data);
  }

  /** A section is jumped over as a whole for any other architecture. */
  lemma SectionSkips(program: seq<Insn>, pc: nat, acc: nat, arch: Arch, sysnums: seq<FilteredSysnum>,
                     data: Data, avoider: nat)
    requires Sits(program, pc, SectionCode(arch, sysnums, avoider)) && arch.value != data.arch
    ensures Execute(program, pc, acc, data)
         == Execute(program, pc + |SectionCode(arch, sysnums, avoider)|, data.arch, data)
  {
    SectionStart(program, pc, arch, sysnums, avoider);
    assert Execute(program, pc, acc, data) == Execute(program, pc + 1, data.arch, data);
    assert Execute(program, pc + 1, data.arch, data) == Execute(program, pc + 2, data.arch, data);
  }

  lemma {:induction false} SectionsSit(archs: seq<Arch>, sysnums: seq<FilteredSysnum>, i: nat, avoider: nat)
    requires i <= |archs|
    ensures var all := SectionsCode(archs, sysnums, |archs|, avoider);
      && |SectionsCode(archs, sysnums, i, avoider)| <= |all|
      && all[..|SectionsCode(archs, sysnums, i, avoider)|] == SectionsCode(archs, sysnums, i, avoider)
    decreases |archs| - i
  {
    if i < |archs| {
      SectionsSit(archs, sysnums, i + 1, avoider);
      var all := SectionsCode(archs, sysnums, |archs|, avoider);
      var a, b := SectionsCode(archs, sysnums, i, avoider), SectionCode(archs[i], sysnums, avoider);
      assert all[..|a|] == all[..|a + b|][..|a|] == (a + b)[..|a|];
    }
  }

  lemma SectionSits(program: seq<Insn>, archs: seq<Arch>, sysnums: seq<FilteredSysnum>, i: nat, avoider: nat)
    requires i < |archs| && SectionsCode(archs, sysnums, |archs|, avoider) <= program
    ensures Sits(program, |SectionsCode(archs, sysnums, i, avoider)|, SectionCode(archs[i], sysnums, avoider))
    ensures |SectionsCode(archs, sysnums, i + 1, avoider)|
         == |SectionsCode(archs, sysnums, i, avoider)| + |SectionCode(archs[i], sysnums, avoider)|
  {
    SectionsSit(archs, sysnums, i + 1, avoider);
    var a, b := SectionsCode(archs, sysnums, i, avoider), SectionCode(archs[i], sysnums, avoider);
    var all := SectionsCode(archs, sysnums, |archs|, avoider);
    assert program[..|a + b|] == all[..|a + b|] == a + b;
    assert program[|a|..|a| + |b|] == program[..|a + b|][|a|..] == b;
  }

  lemma {:induction false} SectionsAnswer(program: seq<Insn>, archs: seq<Arch>, sysnums: seq<FilteredSysnum>, i: nat,
                                          acc: nat, data: Data, avoider: nat)
    requires i <= |archs| && SectionsCode(archs, sysnums, |archs|, avoider) < program
    requires program[|SectionsCode(archs, sysnums, |archs|, avoider)|] == Return(SECCOMP_RET_KILL)
    ensures Execute(program, |SectionsCode(archs, sysnums, i, avoider)|, acc, data)
         == Some(Answer(archs, sysnums, data, i, avoider))
    decreases |archs| - i
  {
    hide SectionsCode;
    if i < |archs| {
      SectionsAnswer(program, archs, sysnums, i + 1, data.arch, data, avoider);
      SectionStep(program, archs, sysnums, i, acc, data, avoider);
    }
  }

  lemma SectionStep(program: seq<Insn>, archs: seq<Arch>, sysnums: seq<FilteredSysnum>, i: nat, acc: nat,
                    data: Data, avoider: nat)
    requires i < |archs| && SectionsCode(archs, sysnums, |archs|, avoider) < program
    requires Execute(program, |SectionsCode(archs, sysnums, i + 1, avoider)|, data.arch, data)
          == Some(Answer(archs, sysnums, data, i + 1, avoider))
    ensures Execute(program, |SectionsCode(archs, sysnums, i, avoider)|, acc, data)
         == Some(Answer(archs, sysnums, data, i, avoider))
  {
    hide SectionCode, TracedByAll, Execute, AnswerOf, SectionsCode;
    var pc := |SectionsCode(archs, sysnums, i, avoider)|;
    SectionSits(program, archs, sysnums, i, avoider);
    var next := pc + |SectionCode(archs[i], sysnums, avoider)|;
    assert next == |SectionsCode(archs, sysnums, i + 1, avoider)|;
    var list := TracedByAll(archs[i].abis, sysnums, |archs[i].abis|, avoider);
    if archs[i].value == data.arch {
      SectionHandles(program, pc, acc, archs[i], sysnums, data, avoider);
      assert Execute(program, pc, acc, data) == Some(AnswerOf(list, data.nr));
    } else {
      SectionSkips(program, pc, acc, archs[i], sysnums, data, avoider);
      assert Execute(program, pc, acc, data) == Execute(program, next, data.arch, data);
    }
  }

  lemma ProgramAnswers(archs: seq<Arch>, sysnums: seq<FilteredSysnum>, data: Data, avoider: nat)
    ensures Execute(ProgramCode(archs, sysnums, avoider), 0, 0, data)
         == Some(Answer(archs, sysnums, data, 0, avoider))
  {
    var program := ProgramCode(archs, sysnums, avoider);
    assert program[|SectionsCode(archs, sysnums, |archs|, avoider)|] == Return(SECCOMP_RET_KILL);
    SectionsAnswer(program, archs, sysnums, 0, 0, data, avoider);
  }

  // ---------------------------------------------------------------------
  // The answer in terms of the filtered syscalls
  // ---------------------------------------------------------------------

  /** `nr` is the number, on that architecture, of the listed syscall `sysnum`. */
  ghost predicate IsNumberOf(arch: Arch, sysnums: seq<FilteredSysnum>, nr: nat, sysnum: nat, avoider: nat) {
    && Listed(sysnums, sysnum) && nr != avoider
    && exists j :: 0 <= j < |arch.abis| && Number(arch.abis[j], sysnum, avoider) == nr
  }

  /** The number ranges of the ABIs of one architecture do not overlap. */
  predicate Separate(abis: seq<Abi>) {
    forall i, j :: 0 <= i < j < |abis| ==>
      abis[i].offset + |abis[i].table| <= abis[j].offset || abis[j].offset + |abis[j].table| <= abis[i].offset
  }

  lemma {:induction false} AnswerOfEntry(list: seq<Traced>, nr: nat, flags: nat)
    requires exists e :: e in list && e.number == nr
    requires forall e :: e in list && e.number == nr ==> e.flags == flags
    ensures AnswerOf(list, nr) == TraceValue(flags)
  {
    if list[0].number != nr {
      var e :| e in list && e.number == nr;
      assert e in list[1..];
      AnswerOfEntry(list[1..], nr, flags);
    }
  }

  lemma {:induction false} AnswerOfNone(list: seq<Traced>, nr: nat)
    requires forall e :: e in list ==> e.number != nr
    ensures AnswerOf(list, nr) == SECCOMP_RET_ALLOW
  {
    if list != [] {
      assert list[0] in list;
      AnswerOfNone(list[1..], nr);
    }
  }

  lemma {:induction false} TracedByMembers(abi: Abi, sysnums: seq<FilteredSysnum>, k: nat, avoider: nat, e: Traced)
    requires k <= |sysnums|
    ensures e in TracedBy(abi, sysnums, k, avoider) <==>
      exists m :: 0 <= m < k && sysnums[m].flags == e.flags && e.number != avoider
        && Number(abi, sysnums[m].value, avoider) == e.number
  {
    if k > 0 { TracedByMembers(abi, sysnums, k - 1, avoider, e); }
  }

  lemma {:induction false} TracedByAllMembers(abis: seq<Abi>, sysnums: seq<FilteredSysnum>, j: nat, avoider: nat, e: Traced)
    requires j <= |abis|
    ensures e in TracedByAll(abis, sysnums, j, avoider) <==>
      exists i :: 0 <= i < j && e in TracedBy(abis[i], sysnums, Entries(sysnums), avoider)
  {
    hide TracedBy, Entries;
    if j > 0 { TracedByAllMembers(abis, sysnums, j - 1, avoider, e); }
  }

  /** A number belongs to one ABI and there to one syscall. */
  lemma NumberIsUnique(abis: seq<Abi>, i: nat, j: nat, v: nat, w: nat, avoider: nat)
    requires Separate(abis) && i < |abis| && j < |abis|
    requires Number(abis[i], v, avoider) == Number(abis[j], w, avoider) != avoider
    ensures v == w
  {
  }

  /** An entry of the emitted list for `nr` carries the merged flags of the syscall. */
  lemma TracedFlags(arch: Arch, sysnums: seq<FilteredSysnum>, nr: nat, sysnum: nat, avoider: nat, e: Traced)
    requires Merged(sysnums) && Separate(arch.abis) && IsNumberOf(arch, sysnums, nr, sysnum, avoider)
    requires e in TracedByAll(arch.abis, sysnums, |arch.abis|, avoider) && e.number == nr
    ensures e.flags == Flags(sysnums, sysnum)
  {
    TracedByAllMembers(arch.abis, sysnums, |arch.abis|, avoider, e);
    var i :| 0 <= i < |arch.abis| && e in TracedBy(arch.abis[i], sysnums, Entries(sysnums), avoider);
    TracedByMembers(arch.abis[i], sysnums, Entries(sysnums), avoider, e);
    var m :| 0 <= m < Entries(sysnums) && sysnums[m].flags == e.flags
      && Number(arch.abis[i], sysnums[m].value, avoider) == e.number;
    var j :| 0 <= j < |arch.abis| && Number(arch.abis[j], sysnum, avoider) == nr;
    NumberIsUnique(arch.abis, i, j, sysnums[m].value, sysnum, avoider);
    FlagsOfEntry(sysnums, Entries(sysnums), m);
  }

  lemma TracedEntry(arch: Arch, sysnums: seq<FilteredSysnum>, nr: nat, sysnum: nat, avoider: nat)
    requires IsNumberOf(arch, sysnums, nr, sysnum, avoider)
    ensures exists e :: e in TracedByAll(arch.abis, sysnums, |arch.abis|, avoider) && e.number == nr
  {
    var m :| 0 <= m < Entries(sysnums) && sysnums[m].value == sysnum;
    var j :| 0 <= j < |arch.abis| && Number(arch.abis[j], sysnum, avoider) == nr;
    var e := Traced(nr, sysnums[m].flags);
    TracedByMembers(arch.abis[j], sysnums, Entries(sysnums), avoider, e);
    TracedByAllMembers(arch.abis, sysnums, |arch.abis|, avoider, e);
  }

  lemma UntracedEntry(arch: Arch, sysnums: seq<FilteredSysnum>, nr: nat, avoider: nat, e: Traced)
    requires forall v :: !IsNumberOf(arch, sysnums, nr, v, avoider)
    requires e in TracedByAll(arch.abis, sysnums, |arch.abis|, avoider)
    ensures e.number != nr
  {
    TracedByAllMembers(arch.abis, sysnums, |arch.abis|, avoider, e);
    var i :| 0 <= i < |arch.abis| && e in TracedBy(arch.abis[i], sysnums, Entries(sysnums), avoider);
    TracedByMembers(arch.abis[i], sysnums, Entries(sysnums), avoider, e);
    var m :| 0 <= m < Entries(sysnums) && Number(arch.abis[i], sysnums[m].value, avoider) == e.number;
    if e.number == nr {
      assert Listed(sysnums, sysnums[m].value);
      assert IsNumberOf(arch, sysnums, nr, sysnums[m].value, avoider);
    }
  }

  /** The section that handles an architecture means its list of syscalls. */
  lemma SectionMeaning(arch: Arch, sysnums: seq<FilteredSysnum>, nr: nat, avoider: nat)
    requires Merged(sysnums) && Separate(arch.abis)
    ensures forall v :: IsNumberOf(arch, sysnums, nr, v, avoider) ==>
      AnswerOf(TracedByAll(arch.abis, sysnums, |arch.abis|, avoider), nr) == TraceValue(Flags(sysnums, v))
    ensures (forall v :: !IsNumberOf(arch, sysnums, nr, v, avoider)) ==>
      AnswerOf(TracedByAll(arch.abis, sysnums, |arch.abis|, avoider), nr) == SECCOMP_RET_ALLOW
  {
    var list := TracedByAll(arch.abis, sysnums, |arch.abis|, avoider);
    forall v | IsNumberOf(arch, sysnums, nr, v, avoider) ensures AnswerOf(list, nr) == TraceValue(Flags(sysnums, v)) {
      TracedEntry(arch, sysnums, nr, v, avoider);
      forall e | e in list && e.number == nr ensures e.flags == Flags(sysnums, v) {
        TracedFlags(arch, sysnums, nr, v, avoider, e);
      }
      AnswerOfEntry(list, nr, Flags(sysnums, v));
    }
    if forall v :: !IsNumberOf(arch, sysnums, nr, v, avoider) {
      forall e | e in list ensures e.number != nr { UntracedEntry(arch, sysnums, nr, avoider, e); }
      AnswerOfNone(list, nr);
    }
  }

  lemma {:induction false} FirstSection(archs: seq<Arch>, sysnums: seq<FilteredSysnum>, data: Data, i: nat, k: nat, avoider: nat)
    requires i <= k < |archs| && archs[k].value == data.arch
    requires forall m :: i <= m < k ==> archs[m].value != data.arch
    ensures Answer(archs, sysnums, data, i, avoider)
         == AnswerOf(TracedByAll(archs[k].abis, sysnums, |archs[k].abis|, avoider), data.nr)
    decreases k - i
  {
    if i < k { FirstSection(archs, sysnums, data, i + 1, k, avoider); }
  }

  lemma {:induction false} NoSection(archs: seq<Arch>, sysnums: seq<FilteredSysnum>, data: Data, i: nat, avoider: nat)
    requires i <= |archs| && forall m :: i <= m < |archs| ==> archs[m].value != data.arch
    ensures Answer(archs, sysnums, data, i, avoider) == SECCOMP_RET_KILL
    decreases |archs| - i
  {
    if i < |archs| { NoSection(archs, sysnums, data, i + 1, avoider); }
  }

  /**
   The emitted program reaches a return for every architecture and number.  On a handled architecture
   it answers TRACE with the merged flags for a number of a listed syscall and ALLOW for any other
   number; on any other architecture it answers KILL.
   */
  lemma ProgramMeaning(archs: seq<Arch>, sysnums: seq<FilteredSysnum>, data: Data, avoider: nat)
    requires Merged(sysnums) && forall i :: 0 <= i < |archs| ==> Separate(archs[i].abis)
    requires forall i, j :: 0 <= i < j < |archs| ==> archs[i].value != archs[j].value
    ensures var program := ProgramCode(archs, sysnums, avoider);
      && Execute(program, 0, 0, data).Some?
      && ((forall i :: 0 <= i < |archs| ==> archs[i].value != data.arch) ==>
            Execute(program, 0, 0, data) == Some(SECCOMP_RET_KILL))
      && (forall i | 0 <= i < |archs| && archs[i].value == data.arch ::
            (forall v :: IsNumberOf(archs[i], sysnums, data.nr, v, avoider) ==>
              Execute(program, 0, 0, data) == Some(TraceValue(Flags(sysnums, v)))))
      && (forall i | 0 <= i < |archs| && archs[i].value == data.arch ::
            (forall v :: !IsNumberOf(archs[i], sysnums, data.nr, v, avoider)) ==>
              Execute(program, 0, 0, data) == Some(SECCOMP_RET_ALLOW))
  {
    ProgramAnswers(archs, sysnums, data, avoider);
    if forall i :: 0 <= i < |archs| ==> archs[i].value != data.arch {
      NoSection(archs, sysnums, data, 0, avoider);
    }
    forall i | 0 <= i < |archs| && archs[i].value == data.arch
      ensures Execute(ProgramCode(archs, sysnums, avoider), 0, 0, data)
           == Some(AnswerOf(TracedByAll(archs[i].abis, sysnums, |archs[i].abis|, avoider), data.nr))
    {
      FirstSection(archs, sysnums, data, 0, i, avoider);
    }
    forall i | 0 <= i < |archs| && archs[i].value == data.arch
      ensures forall v :: IsNumberOf(archs[i], sysnums, data.nr, v, avoider) ==>
        Execute(ProgramCode(archs, sysnums, avoider), 0, 0, data) == Some(TraceValue(Flags(sysnums, v)))
      ensures (forall v :: !IsNumberOf(archs[i], sysnums, data.nr, v, avoider)) ==>
        Execute(ProgramCode(archs, sysnums, avoider), 0, 0, data) == Some(SECCOMP_RET_ALLOW)
    {
      SectionMeaning(archs[i], sysnums, data.nr, avoider);
    }
  }

  // ---------------------------------------------------------------------
  // What the tracer reads from the answer
  // ---------------------------------------------------------------------

  /** SECCOMP_RET_ACTION: the upper half of the value. */
  function ActionOf(value: nat): nat {
    value / 0x1_0000 * 0x1_0000
  }

  /** SECCOMP_RET_DATA, what PTRACE_GETEVENTMSG gives at the stop. */
  function DataOf(value: nat): nat {
    value % 0x1_0000
  }

  /** The action and the flags are read back exactly if the flags fit in the lower half. */
  lemma TraceIsRead(flags: nat)
    requires flags <= UINT32_MAX
    ensures ActionOf(TraceValue(flags)) == SECCOMP_RET_TRACE && DataOf(TraceValue(flags)) == flags <==> flags < 0x1_0000
    ensures flags < 0x1_0000 ==> TraceValue(flags) != SECCOMP_RET_ALLOW && TraceValue(flags) != SECCOMP_RET_KILL
  {
  }

  /** The tracer is stopped for every listed syscall, and only for those, and learns all of its flags. */
  lemma TracerLearnsFlags(archs: seq<Arch>, sysnums: seq<FilteredSysnum>, data: Data, avoider: nat, i: nat)
    requires Merged(sysnums) && forall k :: 0 <= k < |archs| ==> Separate(archs[k].abis)
    requires forall j, k :: 0 <= j < k < |archs| ==> archs[j].value != archs[k].value
    requires forall v :: Flags(sysnums, v) < 0x1_0000
    requires i < |archs| && archs[i].value == data.arch
    ensures var answer := Execute(ProgramCode(archs, sysnums, avoider), 0, 0, data);
      && answer.Some?
      && (ActionOf(answer.value) == SECCOMP_RET_TRACE <==> exists v :: IsNumberOf(archs[i], sysnums, data.nr, v, avoider))
      && forall v :: IsNumberOf(archs[i], sysnums, data.nr, v, avoider) ==> DataOf(answer.value) == Flags(sysnums, v)
  {
    hide Execute, ProgramCode, IsNumberOf, Flags, Merged, Separate, TraceValue;
    ProgramMeaning(archs, sysnums, data, avoider);
    forall v
      ensures ActionOf(TraceValue(Flags(sysnums, v))) == SECCOMP_RET_TRACE
      ensures DataOf(TraceValue(Flags(sysnums, v))) == Flags(sysnums, v)
    {
      TraceIsRead(Flags(sysnums, v));
    }
  }

  // ---------------------------------------------------------------------
  // The 16-bit length of the installed program
  // ---------------------------------------------------------------------

  /** What the kernel sees: `len` is an unsigned short. */
  function Installed(program: seq<Insn>): seq<Insn> {
    program[..|program| % 0x1_0000]
  }

  /** Also in a cut program a foreign architecture jumps over the whole section, or falls off the end. */
  lemma ForeignSkips(program: seq<Insn>, all: seq<Insn>, pc: nat, acc: nat, arch: Arch, list: seq<Traced>, data: Data)
    requires program <= all && arch.value != data.arch
    requires Sits(all, pc, StartCode(arch.value, |list|))
    ensures Execute(program, pc, acc, data) == None
         || Execute(program, pc, acc, data) == Execute(program, pc + 5 + 2 * |list|, data.arch, data)
  {
    var start := StartCode(arch.value, |list|);
    SitsAt(all, pc, start, 0);
    SitsAt(all, pc, start, 1);
    SitsAt(all, pc, start, 2);
    if pc + 2 < |program| {
      assert program[pc] == start[0] && program[pc + 1] == start[1] && program[pc + 2] == start[2];
      assert Execute(program, pc, acc, data) == Execute(program, pc + 1, data.arch, data);
      assert Execute(program, pc + 1, data.arch, data) == Execute(program, pc + 2, data.arch, data);
    } else if pc + 1 < |program| {
      assert program[pc] == start[0] && program[pc + 1] == start[1];
      assert Execute(program, pc, acc, data) == Execute(program, pc + 1, data.arch, data);
      assert Execute(program, pc + 1, data.arch, data) == Execute(program, pc + 2, data.arch, data) == None;
    } else if pc < |program| {
      assert program[pc] == start[0];
      assert Execute(program, pc, acc, data) == Execute(program, pc + 1, data.arch, data) == None;
    }
  }

  lemma RunsOff(program: seq<Insn>, pc: nat, acc: nat, data: Data)
    requires pc >= |program|
    ensures Execute(program, pc, acc, data) == None
  {
  }

  lemma {:induction false} UnhandledRunsOff(program: seq<Insn>, archs: seq<Arch>, sysnums: seq<FilteredSysnum>, i: nat,
                                            acc: nat, data: Data, avoider: nat)
    requires i <= |archs| && program <= SectionsCode(archs, sysnums, |archs|, avoider)
    requires forall m :: i <= m < |archs| ==> archs[m].value != data.arch
    ensures Execute(program, |SectionsCode(archs, sysnums, i, avoider)|, acc, data) == None
    decreases |archs| - i
  {
    hide TracedByAll, Execute, Sits, TraceCode, SectionsCode;
    if i == |archs| {
      RunsOff(program, |SectionsCode(archs, sysnums, i, avoider)|, acc, data);
    } else {
      var all := SectionsCode(archs, sysnums, |archs|, avoider);
      var pc := |SectionsCode(archs, sysnums, i, avoider)|;
      var list := TracedByAll(archs[i].abis, sysnums, |archs[i].abis|, avoider);
      var start, rest := StartCode(archs[i].value, |list|), TraceCode(list) + [Return(SECCOMP_RET_ALLOW)];
      SectionSits(all, archs, sysnums, i, avoider);
      assert SectionCode(archs[i], sysnums, avoider) == start + rest;
      SitsPart(all, pc, start, rest);
      UnhandledRunsOff(program, archs, sysnums, i + 1, data.arch, data, avoider);
      assert |SectionsCode(archs, sysnums, i + 1, avoider)| == pc + 5 + 2 * |list|;
      ForeignSkips(program, all, pc, acc, archs[i], list, data);
    }
  }

  /** Jumps only go forward: a cut program answers like the whole one or runs off its end. */
  lemma {:induction false} CutAnswers(cut: seq<Insn>, program: seq<Insn>, pc: nat, acc: nat, data: Data)
    requires cut <= program
    ensures Execute(cut, pc, acc, data) == None || Execute(cut, pc, acc, data) == Execute(program, pc, acc, data)
    decreases |cut| - pc
  {
    if pc < |cut| {
      assert cut[pc] == program[pc];
      match cut[pc]
      case Load(offset) => CutAnswers(cut, program, pc + 1, if offset == NR_OFFSET then data.nr else data.arch, data);
      case JumpIfEqual(k, jt, jf) => CutAnswers(cut, program, pc + 1 + (if acc == k then jt else jf), acc, data);
      case Jump(distance) => CutAnswers(cut, program, pc + 1 + distance, acc, data);
      case Return(_) =>
    }
  }

  /**
   The installed program is the emitted one when its length fits in 16 bits.  A longer one is cut: it
   still answers like the emitted one whenever it answers, but a caller on an architecture that PRoot
   does not handle runs off its end instead of being killed.
   */
  lemma InstalledMeaning(archs: seq<Arch>, sysnums: seq<FilteredSysnum>, data: Data, avoider: nat)
    ensures var program := ProgramCode(archs, sysnums, avoider);
      && (|program| < 0x1_0000 ==> Installed(program) == program)
      && (Execute(Installed(program), 0, 0, data) == None
          || Execute(Installed(program), 0, 0, data) == Execute(program, 0, 0, data))
      && ((forall i :: 0 <= i < |archs| ==> archs[i].value != data.arch) ==>
            (Execute(Installed(program), 0, 0, data) == Some(SECCOMP_RET_KILL) <==> |program| < 0x1_0000))
  {
    hide Execute;
    var program := ProgramCode(archs, sysnums, avoider);
    CutAnswers(Installed(program), program, 0, 0, data);
    if forall i :: 0 <= i < |archs| ==> archs[i].value != data.arch {
      if |program| < 0x1_0000 {
        assert Installed(program) == program;
        ProgramAnswers(archs, sysnums, data, avoider);
        NoSection(archs, sysnums, data, 0, avoider);
      } else {
        var all := SectionsCode(archs, sysnums, |archs|, avoider);
        assert Installed(program) == all[..|Installed(program)|];
        UnhandledRunsOff(Installed(program), archs, sysnums, 0, 0, data, avoider);
      }
    }
  }

  // ---------------------------------------------------------------------
  // The emitter
  // ---------------------------------------------------------------------

  /** No sanity check of the emitter fails on the sections before `i`. */
  predicate Emittable(archs: seq<Arch>, sysnums: seq<FilteredSysnum>, i: nat, avoider: nat)
    requires i <= |archs|
  {
    i > 0 ==>
      && Emittable(archs, sysnums, i - 1, avoider)
      && var list := TracedByAll(archs[i - 1].abis, sysnums, |archs[i - 1].abis|, avoider);
         && LENGTH_END_SECTION + |list| * LENGTH_TRACE_SYSCALL <= UINT32_MAX - 1
         && |SectionsCode(archs, sysnums, i - 1, avoider)| + LENGTH_START_SECTION < 0x1_0000
         && Fits32(list)
  }

  lemma {:induction false} EmittableBefore(archs: seq<Arch>, sysnums: seq<FilteredSysnum>, i: nat, k: nat, avoider: nat)
    requires k <= i <= |archs| && Emittable(archs, sysnums, i, avoider)
    ensures Emittable(archs, sysnums, k, avoider)
  {
    if k < i { EmittableBefore(archs, sysnums, i - 1, k, avoider); }
  }

  /** struct sock_fprog while it is built. */
  class Program {
    var filter: seq<Insn>
    var len: nat

    constructor ()
      ensures filter == [] && len == 0
    {
      filter, len := [], 0;
    }

    method AddStatements(statements: seq<Insn>)
      modifies this
      ensures filter == old(filter) + statements && len == old(len)
    {
      var i := 0;
      while i < |statements|
        invariant 0 <= i <= |statements| && len == old(len)
        invariant filter == old(filter) + statements[..i]
      {
        filter := filter + [statements[i]];
        i := i + 1;
      }
    }

    method AddTraceSyscall(syscall: nat, flag: nat) returns (ok: bool)
      modifies this
      ensures ok <==> syscall <= UINT32_MAX
      ensures filter == old(filter)
        + (if ok then [JumpIfEqual(syscall, 0, 1), Return(TraceValue(flag))] else []) && len == old(len)
    {
      if syscall > UINT32_MAX {
        return false;
      }
      AddStatements([JumpIfEqual(syscall, 0, 1), Return(TraceValue(flag))]);
      return true;
    }

    method StartArchSection(arch: nat, count: nat) returns (ok: bool)
      modifies this
      ensures ok <==> LENGTH_END_SECTION + count * LENGTH_TRACE_SYSCALL <= UINT32_MAX - 1
      ensures ok ==> filter == old(filter) + StartCode(arch, count) && len == |filter| % 0x1_0000
    {
      var sectionLength := LENGTH_END_SECTION + count * LENGTH_TRACE_SYSCALL;
      if sectionLength > UINT32_MAX - 1 {
        return false;
      }
      AddStatements([Load(ARCH_OFFSET), JumpIfEqual(arch, 1, 0), Jump(sectionLength + 1), Load(NR_OFFSET)]);
      len := |filter| % 0x1_0000;
      return true;
    }

    method EndArchSection(count: nat) returns (ok: bool)
      modifies this
      ensures filter == old(filter) + [Return(SECCOMP_RET_ALLOW)] && len == old(len)
      ensures ok <==> |filter| - len == LENGTH_END_SECTION + count * LENGTH_TRACE_SYSCALL
    {
      AddStatements([Return(SECCOMP_RET_ALLOW)]);
      ok := |filter| - len == LENGTH_END_SECTION + count * LENGTH_TRACE_SYSCALL;
    }

    method Finalize()
      modifies this
      ensures filter == old(filter) + [Return(SECCOMP_RET_KILL)] && len == |filter| % 0x1_0000
    {
      AddStatements([Return(SECCOMP_RET_KILL)]);
      len := |filter| % 0x1_0000;
    }
  }

  /** The first loop over the ABIs of an architecture: how many of its syscalls are traced. */
  method CountTraced(arch: Arch, sysnums: seq<FilteredSysnum>, avoider: nat) returns (count: nat)
    requires Terminated(sysnums)
    ensures count == |TracedByAll(arch.abis, sysnums, |arch.abis|, avoider)|
  {
    count := 0;
    var j := 0;
    while j < |arch.abis|
      invariant 0 <= j <= |arch.abis| && count == |TracedByAll(arch.abis, sysnums, j, avoider)|
    {
      var k := 0;
      while sysnums[k].value != PR_VOID
        invariant 0 <= k <= Entries(sysnums)
        invariant count == |TracedByAll(arch.abis, sysnums, j, avoider)| + |TracedBy(arch.abis[j], sysnums, k, avoider)|
        decreases Entries(sysnums) - k
      {
        var syscall := DetranslateSysnum(arch.abis[j], sysnums[k].value, avoider);
        if syscall != avoider {
          count := count + 1;
        }
        k := k + 1;
      }
      j := j + 1;
    }
  }

  lemma TraceCodeSnoc(list: seq<Traced>, e: Traced)
    ensures TraceCode(list + [e]) == TraceCode(list) + [JumpIfEqual(e.number, 0, 1), Return(TraceValue(e.flags))]
  {
    assert (list + [e])[..|list|] == list;
  }

  lemma {:induction false} TraceCodeAppend(a: seq<Traced>, b: seq<Traced>)
    ensures TraceCode(a + b) == TraceCode(a) + TraceCode(b)
  {
    if b == [] {
      assert a + b == a;
    } else {
      var front, last := b[..|b| - 1], b[|b| - 1];
      assert b == front + [last] && a + b == (a + front) + [last];
      TraceCodeAppend(a, front);
      TraceCodeSnoc(a + front, last);
      TraceCodeSnoc(front, last);
    }
  }

  predicate Fits32(list: seq<Traced>) {
    forall i :: 0 <= i < |list| ==> list[i].number <= UINT32_MAX
  }

  lemma FitsConcat(a: seq<Traced>, b: seq<Traced>)
    ensures Fits32(a + b) <==> Fits32(a) && Fits32(b)
  {
    assert forall i :: 0 <= i < |a| ==> (a + b)[i] == a[i];
    assert forall i :: 0 <= i < |b| ==> (a + b)[|a| + i] == b[i];
  }

  lemma FitsPrefix(a: seq<Traced>, b: seq<Traced>)
    requires a <= b && Fits32(b)
    ensures Fits32(a)
  {
    assert forall i :: 0 <= i < |a| ==> a[i] == b[i];
  }

  lemma {:induction false} TracedByGrows(abi: Abi, sysnums: seq<FilteredSysnum>, k: nat, n: nat, avoider: nat)
    requires k <= n <= |sysnums|
    ensures TracedBy(abi, sysnums, k, avoider) <= TracedBy(abi, sysnums, n, avoider)
  {
    if k < n { TracedByGrows(abi, sysnums, k, n - 1, avoider); }
  }

  lemma {:induction false} TracedByAllGrows(abis: seq<Abi>, sysnums: seq<FilteredSysnum>, j: nat, n: nat, avoider: nat)
    requires j <= n <= |abis|
    ensures TracedByAll(abis, sysnums, j, avoider) <= TracedByAll(abis, sysnums, n, avoider)
  {
    if j < n { TracedByAllGrows(abis, sysnums, j, n - 1, avoider); }
  }

  lemma SomeDoesNotFit(abis: seq<Abi>, sysnums: seq<FilteredSysnum>, j: nat, avoider: nat)
    requires j <= |abis| && !Fits32(TracedByAll(abis, sysnums, j, avoider))
    ensures !Fits32(TracedByAll(abis, sysnums, |abis|, avoider))
  {
    TracedByAllGrows(abis, sysnums, j, |abis|, avoider);
    if Fits32(TracedByAll(abis, sysnums, |abis|, avoider)) {
      FitsPrefix(TracedByAll(abis, sysnums, j, avoider), TracedByAll(abis, sysnums, |abis|, avoider));
    }
  }

  /** One turn of the innermost loop: emit the pair of statements for one syscall, if the ABI has it. */
  method EmitOne(program: Program, abi: Abi, sysnums: seq<FilteredSysnum>, k: nat, avoider: nat, ghost before: seq<Insn>)
    returns (ok: bool)
    requires k < |sysnums| && program.filter == before + TraceCode(TracedBy(abi, sysnums, k, avoider))
    requires Fits32(TracedBy(abi, sysnums, k, avoider))
    modifies program
    ensures ok <==> Fits32(TracedBy(abi, sysnums, k + 1, avoider))
    ensures ok ==> program.filter == before + TraceCode(TracedBy(abi, sysnums, k + 1, avoider))
    ensures program.len == old(program.len)
  {
    ghost var list := TracedBy(abi, sysnums, k, avoider);
    var syscall := DetranslateSysnum(abi, sysnums[k].value, avoider);
    if syscall == avoider {
      assert TracedBy(abi, sysnums, k + 1, avoider) == list;
      return true;
    }
    ghost var e := Traced(syscall, sysnums[k].flags);
    assert TracedBy(abi, sysnums, k + 1, avoider) == list + [e];
    TraceCodeSnoc(list, e);
    assert (list + [e])[|list|] == e;
    ok := program.AddTraceSyscall(syscall, sysnums[k].flags);
  }

  /** The loop over the filtered syscalls for one ABI. */
  method EmitTracedBy(program: Program, abi: Abi, sysnums: seq<FilteredSysnum>, avoider: nat) returns (ok: bool)
    requires Terminated(sysnums)
    modifies program
    ensures ok <==> Fits32(TracedBy(abi, sysnums, Entries(sysnums), avoider))
    ensures ok ==>
      program.filter == old(program.filter) + TraceCode(TracedBy(abi, sysnums, Entries(sysnums), avoider))
    ensures program.len == old(program.len)
  {
    hide TraceCode, Number;
    ghost var before := program.filter;
    ghost var n := Entries(sysnums);
    var k := 0;
    assert program.filter == before + TraceCode(TracedBy(abi, sysnums, 0, avoider));
    while sysnums[k].value != PR_VOID
      invariant 0 <= k <= n && program.len == old(program.len)
      invariant program.filter == before + TraceCode(TracedBy(abi, sysnums, k, avoider))
      invariant Fits32(TracedBy(abi, sysnums, k, avoider))
      decreases n - k
    {
      ok := EmitOne(program, abi, sysnums, k, avoider, before);
      if !ok {
        TracedByGrows(abi, sysnums, k + 1, n, avoider);
        if Fits32(TracedBy(abi, sysnums, n, avoider)) {
          FitsPrefix(TracedBy(abi, sysnums, k + 1, avoider), TracedBy(abi, sysnums, n, avoider));
        }
        return false;
      }
      k := k + 1;
    }
    assert k == n;
    return true;
  }

  /** The second loop over the ABIs of an architecture: emit one pair of statements per traced syscall. */
  method EmitTraced(program: Program, abis: seq<Abi>, sysnums: seq<FilteredSysnum>, avoider: nat) returns (ok: bool)
    requires Terminated(sysnums)
    modifies program
    ensures ok <==> Fits32(TracedByAll(abis, sysnums, |abis|, avoider))
    ensures ok ==> program.filter == old(program.filter) + TraceCode(TracedByAll(abis, sysnums, |abis|, avoider))
    ensures program.len == old(program.len)
  {
    ghost var before := program.filter;
    var j := 0;
    assert program.filter == before + TraceCode(TracedByAll(abis, sysnums, 0, avoider));
    while j < |abis|
      invariant 0 <= j <= |abis| && program.len == old(program.len)
      invariant program.filter == before + TraceCode(TracedByAll(abis, sysnums, j, avoider))
      invariant Fits32(TracedByAll(abis, sysnums, j, avoider))
    {
      ok := EmitTracedBy(program, abis[j], sysnums, avoider);
      OneMoreAbi(abis, sysnums, j, avoider, before);
      if !ok {
        SomeDoesNotFit(abis, sysnums, j + 1, avoider);
        return false;
      }
      j := j + 1;
    }
    return true;
  }

  lemma OneMoreAbi(abis: seq<Abi>, sysnums: seq<FilteredSysnum>, j: nat, avoider: nat, before: seq<Insn>)
    requires j < |abis|
    ensures var list := TracedBy(abis[j], sysnums, Entries(sysnums), avoider);
      && (Fits32(TracedByAll(abis, sysnums, j + 1, avoider))
          <==> Fits32(TracedByAll(abis, sysnums, j, avoider)) && Fits32(list))
      && before + TraceCode(TracedByAll(abis, sysnums, j + 1, avoider))
          == before + TraceCode(TracedByAll(abis, sysnums, j, avoider)) + TraceCode(list)
  {
    var base, list := TracedByAll(abis, sysnums, j, avoider), TracedBy(abis[j], sysnums, Entries(sysnums), avoider);
    FitsConcat(base, list);
    TraceCodeAppend(base, list);
  }

  /** The sanity check of end_arch_section holds exactly when the start of the section fits in 16 bits. */
  lemma LenCheck(start: nat, section: nat)
    ensures start + section - start % 0x1_0000 == section <==> start < 0x1_0000
  {
  }

  /** set_seccomp_filters up to its prctl calls: the installed program, or -ERANGE. */
  method SetSeccompFilters(archs: seq<Arch>, sysnums: seq<FilteredSysnum>, avoider: nat)
    returns (r: Result<seq<Insn>>)
    requires Terminated(sysnums)
    ensures r == if Emittable(archs, sysnums, |archs|, avoider)
                 then Ok(Installed(ProgramCode(archs, sysnums, avoider))) else Err(ERANGE)
  {
    var program := new Program();
    var i := 0;
    while i < |archs|
      invariant 0 <= i <= |archs| && Emittable(archs, sysnums, i, avoider)
      invariant program.filter == SectionsCode(archs, sysnums, i, avoider)
      modifies program
    {
      var ok := EmitSection(program, archs, sysnums, i, avoider);
      if !ok {
        if Emittable(archs, sysnums, |archs|, avoider) { EmittableBefore(archs, sysnums, |archs|, i + 1, avoider); }
        return Err(ERANGE);
      }
      i := i + 1;
    }
    program.Finalize();
    return Ok(program.filter[..program.len]);
  }

  lemma NextSection(archs: seq<Arch>, sysnums: seq<FilteredSysnum>, i: nat, avoider: nat, list: seq<Traced>)
    requires i < |archs| && list == TracedByAll(archs[i].abis, sysnums, |archs[i].abis|, avoider)
    ensures SectionsCode(archs, sysnums, i + 1, avoider) == SectionsCode(archs, sysnums, i, avoider)
      + (StartCode(archs[i].value, |list|) + TraceCode(list) + [Return(SECCOMP_RET_ALLOW)])
    ensures Emittable(archs, sysnums, i + 1, avoider) <==>
      && Emittable(archs, sysnums, i, avoider)
      && LENGTH_END_SECTION + |list| * LENGTH_TRACE_SYSCALL <= UINT32_MAX - 1
      && |SectionsCode(archs, sysnums, i, avoider)| + LENGTH_START_SECTION < 0x1_0000
      && Fits32(list)
  {
  }

  /** The body of the loop over the architectures. */
  method EmitSection(program: Program, archs: seq<Arch>, sysnums: seq<FilteredSysnum>, i: nat, avoider: nat)
    returns (ok: bool)
    requires Terminated(sysnums) && i < |archs| && Emittable(archs, sysnums, i, avoider)
    requires program.filter == SectionsCode(archs, sysnums, i, avoider)
    modifies program
    ensures ok <==> Emittable(archs, sysnums, i + 1, avoider)
    ensures ok ==> program.filter == SectionsCode(archs, sysnums, i + 1, avoider)
  {
    hide TracedByAll, TraceCode, SectionCode, SectionsCode, Emittable, Fits32;
    ghost var list := TracedByAll(archs[i].abis, sysnums, |archs[i].abis|, avoider);
    ghost var before := program.filter;
    NextSection(archs, sysnums, i, avoider, list);
    var count := CountTraced(archs[i], sysnums, avoider);
    ok := program.StartArchSection(archs[i].value, count);
    if !ok {
      return false;
    }
    ok := EmitTraced(program, archs[i].abis, sysnums, avoider);
    if !ok {
      return false;
    }
    ok := program.EndArchSection(count);
    ghost var start, trace := StartCode(archs[i].value, count), TraceCode(list);
    assert program.filter == before + (start + trace + [Return(SECCOMP_RET_ALLOW)]);
    LenCheck(|before| + LENGTH_START_SECTION, LENGTH_TRACE_SYSCALL * |list| + LENGTH_END_SECTION);
  }
}
