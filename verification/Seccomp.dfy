/**
 The seccomp filter compiler (syscall/seccomp.c, syscall/sysnum.c) and the classic BPF machine
 that runs its output.
 */
module Seccomp {
  import opened Wrappers

  const PR_VOID: nat := 0
  const UINT32_MAX: nat := 0xFFFF_FFFF
  const SECCOMP_RET_KILL: nat := 0
  const SECCOMP_RET_TRACE: nat := 0x7FF0_0000
  const SECCOMP_RET_ALLOW: nat := 0x7FFF_0000

  /** Offsets in struct seccomp_data. */
  const NR_OFFSET: nat := 0
  const ARCH_OFFSET: nat := 4

  // ---------------------------------------------------------------------
  // The machine
  // ---------------------------------------------------------------------

  datatype Insn =
    | Load(offset: nat)
    | JumpIfEqual(k: nat, jt: nat, jf: nat)
    | Jump(distance: nat)
    | Return(value: nat)

  datatype Data = Data(nr: nat, arch: nat)

  /** The value the program returns from `pc` on, or None when it runs off its end or loads a wrong offset. */
  function Execute(program: seq<Insn>, pc: nat, acc: nat, data: Data): Option<nat>
    decreases |program| - pc
  {
    if pc >= |program| then None
    else match program[pc]
      case Load(offset) =>
        if offset == NR_OFFSET then Execute(program, pc + 1, data.nr, data)
        else if offset == ARCH_OFFSET then Execute(program, pc + 1, data.arch, data)
        else None
      case JumpIfEqual(k, jt, jf) => Execute(program, pc + 1 + (if acc == k then jt else jf), acc, data)
      case Jump(distance) => Execute(program, pc + 1 + distance, acc, data)
      case Return(value) => Some(value)
  }

  // ---------------------------------------------------------------------
  // Syscall number tables
  // ---------------------------------------------------------------------

  /** The table of one ABI: `table[i]` is the neutral number of the syscall `offset + i`. */
  datatype Abi = Abi(table: seq<nat>, offset: nat)

  function IndexOf(table: seq<nat>, sysnum: nat): (r: Option<nat>)
    ensures r.Some? ==> r.value < |table| && table[r.value] == sysnum
    ensures r.Some? ==> forall i :: 0 <= i < r.value ==> table[i] != sysnum
    ensures r.None? <==> sysnum !in table
  {
    if table == [] then None
    else
      var front := table[..|table| - 1];
      assert table == front + [table[|table| - 1]];
      match IndexOf(front, sysnum)
      case Some(i) => Some(i)
      case None => if table[|table| - 1] == sysnum then Some(|table| - 1) else None
  }

  /** detranslate_sysnum; `avoider` is the number that stands for "no such syscall". */
  function Number(abi: Abi, sysnum: nat, avoider: nat): nat {
    if sysnum == PR_VOID then avoider
    else match IndexOf(abi.table, sysnum)
      case Some(i) => i + abi.offset
      case None => avoider
  }

  method DetranslateSysnum(abi: Abi, sysnum: nat, avoider: nat) returns (number: nat)
    ensures number == Number(abi, sysnum, avoider)
  {
    if sysnum == PR_VOID {
      return avoider;
    }
    var i := 0;
    while i < |abi.table|
      invariant 0 <= i <= |abi.table|
      invariant forall j :: 0 <= j < i ==> abi.table[j] != sysnum
    {
      if abi.table[i] == sysnum {
        return i + abi.offset;
      }
      i := i + 1;
    }
    return avoider;
  }

  /** translate_sysnum; None where the code reads one element past the table (sysnum.c:95). */
  function Translated(abi: Abi, number: nat): Option<nat> {
    if number < abi.offset then Some(PR_VOID)
    else
      var index := number - abi.offset;
      if index > |abi.table| then Some(PR_VOID)
      else if index == |abi.table| then None
      else Some(abi.table[index])
  }

  /** A neutral number that the ABI has survives the way to its own number and back. */
  lemma NumberRoundTrip(abi: Abi, sysnum: nat, avoider: nat)
    requires sysnum in abi.table && sysnum != PR_VOID
    ensures Translated(abi, Number(abi, sysnum, avoider)) == Some(sysnum)
  {
    assert IndexOf(abi.table, sysnum).Some?;
  }

  // ---------------------------------------------------------------------
  // Merging the lists of filtered syscalls
  // ---------------------------------------------------------------------

  datatype FilteredSysnum = FilteredSysnum(value: nat, flags: nat)

  /** The number of entries before the terminator, or all of them. */
  function Entries(list: seq<FilteredSysnum>): (n: nat)
    ensures n <= |list|
    ensures forall i :: 0 <= i < n ==> list[i].value != PR_VOID
    ensures n < |list| ==> list[n].value == PR_VOID
  {
    if list == [] || list[0].value == PR_VOID then 0
    else 1 + Entries(list[1..])
  }

  /** Bitwise or. */
  function Or(a: nat, b: nat): nat {
    if a == 0 && b == 0 then 0
    else 2 * Or(a / 2, b / 2) + (if a % 2 == 1 || b % 2 == 1 then 1 else 0)
  }

  lemma {:induction false} OrZero(a: nat)
    ensures Or(a, 0) == a && Or(0, a) == a
  {
    if a > 0 { OrZero(a / 2); }
  }

  lemma {:induction false} OrHalves(a: nat, b: nat)
    ensures Or(a, b) / 2 == Or(a / 2, b / 2)
    ensures Or(a, b) % 2 == if a % 2 == 1 || b % 2 == 1 then 1 else 0
    ensures Or(a, b) == 0 <==> a == 0 && b == 0
  {
    if a > 0 || b > 0 { OrHalves(a / 2, b / 2); }
  }

  lemma {:induction false} OrAssociates(a: nat, b: nat, c: nat)
    ensures Or(Or(a, b), c) == Or(a, Or(b, c))
  {
    if a > 0 || b > 0 || c > 0 {
      OrAssociates(a / 2, b / 2, c / 2);
      OrHalves(a, b);
      OrHalves(b, c);
    }
  }

  /** A list as the code holds it: some entries, then the terminator as its last item. */
  predicate Terminated(list: seq<FilteredSysnum>) {
    Entries(list) < |list|
  }

  predicate Listed(list: seq<FilteredSysnum>, value: nat) {
    exists i :: 0 <= i < Entries(list) && list[i].value == value
  }

  /** The union of the flags of all the first `n` entries for `value`. */
  function FlagsUpTo(list: seq<FilteredSysnum>, n: nat, value: nat): nat
    requires n <= |list|
  {
    if n == 0 then 0
    else Or(FlagsUpTo(list, n - 1, value), if list[n - 1].value == value then list[n - 1].flags else 0)
  }

  function Flags(list: seq<FilteredSysnum>, value: nat): nat {
    FlagsUpTo(list, Entries(list), value)
  }

  /** A merged list: one entry per syscall, the terminator last. */
  predicate Merged(list: seq<FilteredSysnum>) {
    && |list| >= 1 && Entries(list) == |list| - 1
    && forall i, j :: 0 <= i < j < |list| - 1 ==> list[i].value != list[j].value
  }

  lemma {:induction false} EntriesIs(list: seq<FilteredSysnum>, n: nat)
    requires n < |list| && list[n].value == PR_VOID
    requires forall i :: 0 <= i < n ==> list[i].value != PR_VOID
    ensures Entries(list) == n
  {
  }

  lemma {:induction false} FlagsAgree(a: seq<FilteredSysnum>, b: seq<FilteredSysnum>, n: nat, value: nat)
    requires n <= |a| && n <= |b|
    requires forall i :: 0 <= i < n ==> a[i].value == b[i].value && (a[i].value == value ==> a[i].flags == b[i].flags)
    ensures FlagsUpTo(a, n, value) == FlagsUpTo(b, n, value)
  {
    if n > 0 { FlagsAgree(a, b, n - 1, value); }
  }

  lemma {:induction false} FlagsOfAbsent(list: seq<FilteredSysnum>, n: nat, value: nat)
    requires n <= |list| && forall i :: 0 <= i < n ==> list[i].value != value
    ensures FlagsUpTo(list, n, value) == 0
  {
    if n > 0 { FlagsOfAbsent(list, n - 1, value); }
  }

  /** In a list without duplicates the flags of a value are those of its entry. */
  lemma {:induction false} FlagsOfEntry(list: seq<FilteredSysnum>, n: nat, j: nat)
    requires j < n <= |list|
    requires forall i, k :: 0 <= i < k < n ==> list[i].value != list[k].value
    ensures FlagsUpTo(list, n, list[j].value) == list[j].flags
  {
    if j == n - 1 {
      FlagsOfAbsent(list, n - 1, list[j].value);
      OrZero(list[j].flags);
    } else {
      FlagsOfEntry(list, n - 1, j);
      OrZero(list[j].flags);
    }
  }

  /** One turn of the outer loop of merge_filtered_sysnums. */
  function MergeOne(list: seq<FilteredSysnum>, entry: FilteredSysnum): seq<FilteredSysnum>
    requires Terminated(list)
  {
    var j := FindValue(list, entry.value);
    if list[j].value == PR_VOID then list[..j] + [entry, FilteredSysnum(PR_VOID, 0)]
    else list[j := FilteredSysnum(list[j].value, Or(list[j].flags, entry.flags))]
  }

  /** The index of the first entry for `value`, or that of the terminator. */
  function FindValue(list: seq<FilteredSysnum>, value: nat): (j: nat)
    requires Terminated(list)
    ensures j <= Entries(list)
    ensures j < Entries(list) ==> list[j].value == value
    ensures forall i :: 0 <= i < j ==> list[i].value != value
  {
    if list[0].value == PR_VOID || list[0].value == value then 0
    else 1 + FindValue(list[1..], value)
  }

  lemma MergeShape(list: seq<FilteredSysnum>, entry: FilteredSysnum)
    requires Merged(list) && entry.value != PR_VOID
    ensures Merged(MergeOne(list, entry))
    ensures Entries(MergeOne(list, entry))
         == Entries(list) + (if FindValue(list, entry.value) == Entries(list) then 1 else 0)
  {
    var n, j, r := Entries(list), FindValue(list, entry.value), MergeOne(list, entry);
    EntriesIs(r, if j == n then n + 1 else n);
  }

  lemma MergeLists(list: seq<FilteredSysnum>, entry: FilteredSysnum, v: nat)
    requires Merged(list) && entry.value != PR_VOID
    ensures Listed(MergeOne(list, entry), v) <==> Listed(list, v) || v == entry.value
  {
    MergeShape(list, entry);
    var n, j, r := Entries(list), FindValue(list, entry.value), MergeOne(list, entry);
    if Listed(list, v) { var i :| 0 <= i < n && list[i].value == v; assert r[i].value == v; }
    if v == entry.value { assert r[j].value == v; }
    if Listed(r, v) {
      var i :| 0 <= i < Entries(r) && r[i].value == v;
      assert i < n ==> list[i].value == v;
    }
  }

  lemma AppendedFlags(list: seq<FilteredSysnum>, r: seq<FilteredSysnum>, n: nat, v: nat)
    requires n <= |list| && n < |r| && forall i :: 0 <= i < n ==> r[i] == list[i]
    ensures FlagsUpTo(r, n + 1, v) == Or(FlagsUpTo(list, n, v), if r[n].value == v then r[n].flags else 0)
  {
    FlagsAgree(list, r, n, v);
  }

  lemma MergeOneAppends(list: seq<FilteredSysnum>, entry: FilteredSysnum)
    requires Terminated(list) && FindValue(list, entry.value) == Entries(list)
    ensures var r := MergeOne(list, entry);
      |r| == Entries(list) + 2 && r[Entries(list)] == entry && forall i :: 0 <= i < Entries(list) ==> r[i] == list[i]
  {
  }

  lemma AppendFlags(list: seq<FilteredSysnum>, entry: FilteredSysnum, v: nat)
    requires Merged(list) && entry.value != PR_VOID && FindValue(list, entry.value) == Entries(list)
    ensures Flags(MergeOne(list, entry), v) == Or(Flags(list, v), if v == entry.value then entry.flags else 0)
  {
    MergeShape(list, entry);
    MergeOneAppends(list, entry);
    AppendedFlags(list, MergeOne(list, entry), Entries(list), v);
  }

  lemma CombinedFlags(list: seq<FilteredSysnum>, entry: FilteredSysnum)
    requires Merged(list) && entry.value != PR_VOID && FindValue(list, entry.value) < Entries(list)
    ensures Flags(MergeOne(list, entry), entry.value) == Or(Flags(list, entry.value), entry.flags)
  {
    MergeShape(list, entry);
    var n, j, r := Entries(list), FindValue(list, entry.value), MergeOne(list, entry);
    FlagsOfEntry(list, n, j);
    FlagsOfEntry(r, n, j);
  }

  lemma OtherFlags(list: seq<FilteredSysnum>, entry: FilteredSysnum, v: nat)
    requires Merged(list) && entry.value != PR_VOID && FindValue(list, entry.value) < Entries(list)
    requires v != entry.value
    ensures Flags(MergeOne(list, entry), v) == Flags(list, v)
  {
    MergeShape(list, entry);
    FlagsAgree(list, MergeOne(list, entry), Entries(list), v);
  }

  lemma MergeFlags(list: seq<FilteredSysnum>, entry: FilteredSysnum, v: nat)
    requires Merged(list) && entry.value != PR_VOID
    ensures Flags(MergeOne(list, entry), v) == Or(Flags(list, v), if v == entry.value then entry.flags else 0)
  {
    if FindValue(list, entry.value) == Entries(list) {
      AppendFlags(list, entry, v);
    } else if v == entry.value {
      CombinedFlags(list, entry);
    } else {
      OtherFlags(list, entry, v);
      OrZero(Flags(list, v));
    }
  }

  /** One merged entry: it is listed from then on, and its flags are added. */
  lemma MergeOneKeeps(list: seq<FilteredSysnum>, entry: FilteredSysnum)
    requires Merged(list) && entry.value != PR_VOID
    ensures Merged(MergeOne(list, entry))
    ensures forall v :: Listed(MergeOne(list, entry), v) <==> Listed(list, v) || v == entry.value
    ensures forall v :: Flags(MergeOne(list, entry), v) == Or(Flags(list, v), if v == entry.value then entry.flags else 0)
  {
    MergeShape(list, entry);
    forall v ensures Listed(MergeOne(list, entry), v) <==> Listed(list, v) || v == entry.value {
      MergeLists(list, entry, v);
    }
    forall v
      ensures Flags(MergeOne(list, entry), v) == Or(Flags(list, v), if v == entry.value then entry.flags else 0)
    {
      MergeFlags(list, entry, v);
    }
  }

  /** `merged` is `before` with the first `n` entries of `list` merged in. */
  ghost predicate MergedUpTo(before: seq<FilteredSysnum>, list: seq<FilteredSysnum>, n: nat, merged: seq<FilteredSysnum>)
    requires n <= Entries(list)
  {
    && Merged(merged)
    && (forall v :: Listed(merged, v) <==> Listed(before, v) || exists k :: 0 <= k < n && list[k].value == v)
    && (forall v :: Flags(merged, v) == Or(Flags(before, v), FlagsUpTo(list, n, v)))
  }

  lemma MergedStart(before: seq<FilteredSysnum>, list: seq<FilteredSysnum>)
    requires Merged(before)
    ensures MergedUpTo(before, list, 0, before)
  {
    forall v ensures Flags(before, v) == Or(Flags(before, v), FlagsUpTo(list, 0, v)) { OrZero(Flags(before, v)); }
  }

  lemma MergedNext(before: seq<FilteredSysnum>, list: seq<FilteredSysnum>, n: nat, merged: seq<FilteredSysnum>)
    requires n < Entries(list) && MergedUpTo(before, list, n, merged)
    ensures MergedUpTo(before, list, n + 1, MergeOne(merged, list[n]))
  {
    var entry := list[n];
    var r := MergeOne(merged, entry);
    MergeOneKeeps(merged, entry);
    forall v ensures Flags(r, v) == Or(Flags(before, v), FlagsUpTo(list, n + 1, v)) {
      OrAssociates(Flags(before, v), FlagsUpTo(list, n, v), if entry.value == v then entry.flags else 0);
    }
    forall v ensures Listed(r, v) <==> Listed(before, v) || exists k :: 0 <= k < n + 1 && list[k].value == v {
      if v == entry.value { assert list[n].value == v; }
    }
  }

  /** merge_filtered_sysnums: a list without duplicates, each value with all of its flags. */
  method MergeFilteredSysnums(sysnums: Option<seq<FilteredSysnum>>, newSysnums: seq<FilteredSysnum>)
    returns (merged: seq<FilteredSysnum>)
    requires sysnums.Some? ==> Merged(sysnums.value)
    requires Terminated(newSysnums)
    ensures MergedUpTo(if sysnums.Some? then sysnums.value else [FilteredSysnum(PR_VOID, 0)],
                       newSysnums, Entries(newSysnums), merged)
  {
    merged := if sysnums.Some? then sysnums.value else [FilteredSysnum(PR_VOID, 0)];
    ghost var before := merged;
    MergedStart(before, newSysnums);
    var i := 0;
    while newSysnums[i].value != PR_VOID
      invariant 0 <= i <= Entries(newSysnums) && MergedUpTo(before, newSysnums, i, merged)
      decreases Entries(newSysnums) - i
    {
      MergedNext(before, newSysnums, i, merged);
      var j := 0;
      while merged[j].value != PR_VOID && merged[j].value != newSysnums[i].value
        invariant 0 <= j <= Entries(merged)
        invariant forall k :: 0 <= k < j ==> merged[k].value != newSysnums[i].value
        decreases Entries(merged) - j
      {
        j := j + 1;
      }
      FoundAt(merged, newSysnums[i].value, j);
      if merged[j].value == PR_VOID {
        merged := merged[..j] + [newSysnums[i], FilteredSysnum(PR_VOID, 0)];
      } else {
        merged := merged[j := FilteredSysnum(merged[j].value, Or(merged[j].flags, newSysnums[i].flags))];
      }
      i := i + 1;
    }
  }

  lemma {:induction false} FoundAt(list: seq<FilteredSysnum>, value: nat, j: nat)
    requires Terminated(list) && j <= Entries(list) && (j < Entries(list) ==> list[j].value == value)
    requires forall i :: 0 <= i < j ==> list[i].value != value
    ensures value != PR_VOID ==> FindValue(list, value) == j
  {
    if value != PR_VOID { var k := FindValue(list, value); }
  }
}
