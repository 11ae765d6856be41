/**
 The emulation of brk(2) by mmap and mremap (syscall/heap.c:50-213): 64-bit words, and a kernel that
 answers a page-aligned address or an error number.
 */
module Brk {
  import opened Wrappers
  import E = ElfLoad

  const WORDS: nat := 0x1_0000_0000_0000_0000
  const INTS: nat := 0x1_0000_0000

  type Word = w: nat | w < WORDS

  /** What brk is turned into: itself, nothing, or a call on the mapping of the heap. */
  datatype Call = Same | Void | Mmap(address: Word, length: Word) | Mremap(address: Word, oldLength: Word, newLength: Word)

  /** `(int) result` of an error test, which keeps the low 32 bits. */
  function Truncated(result: Word): int {
    var low := result % INTS;
    if low < INTS / 2 then low else low - INTS
  }

  /** The error test of translate_brk_exit. */
  predicate LooksLikeError(result: Word) {
    -4096 < Truncated(result) < 0
  }

  /** `-errno` as a word; the last 4095 words are reserved for this. */
  predicate IsError(result: Word) {
    result > WORDS - 4096
  }

  /** An address of a page; pages have a multiple of 4096 bytes. */
  predicate IsPage(result: Word) {
    result % 4096 == 0
  }

  /** What exactly the truncated test catches. */
  lemma TruncatedTestIff(result: Word)
    ensures LooksLikeError(result) <==> result % INTS > INTS - 4096
  {
  }

  /** Of addresses of pages and of errors, the truncated test tells which is which. */
  lemma TruncatedTestIsExact(result: Word)
    requires IsPage(result) || IsError(result)
    ensures LooksLikeError(result) <==> IsError(result)
  {
    var low := result % INTS;
    if IsPage(result) {
      PageOfLowHalf(result);
    }
  }

  lemma PageOfLowHalf(result: nat)
    requires result % 4096 == 0
    ensures (result % INTS) % 4096 == 0 && result % INTS <= INTS - 4096
  {
    var q := result / INTS;
    assert result == q * INTS + result % INTS;
    assert INTS == 4096 * 0x10_0000;
    MultipleOf4096(q, result % INTS);
  }

  lemma MultipleOf4096(q: nat, low: nat)
    requires (q * INTS + low) % 4096 == 0
    ensures low % 4096 == 0
  {
    assert q * INTS == 4096 * (q * 0x10_0000);
    var k := q * 0x10_0000;
    assert (4096 * k + low) % 4096 == low % 4096;
  }

  // ----- The emulation on values -----

  datatype State = State(base: Word, size: Word, disabled: bool)

  /** The heap offset is the size of a page. */
  function EnterCall(s: State, offset: Word, asked: Word, bssEnd: Word): Call
    requires s.base == 0 || (s.base >= offset && s.base + s.size < WORDS)
  {
    if s.disabled then Same
    else if s.base == 0 then
      if asked != 0 then Same else Mmap(bssEnd, offset)
    else if asked < s.base then Void
    else Mremap(s.base - offset, s.size + offset, asked - s.base + offset)
  }

  /** The new state, and the result that the tracee gets. */
  function ExitCall(s: State, offset: Word, asked: Word, call: Call, answer: Word): (State, Word)
    requires s.base + s.size < WORDS && (call.Mremap? ==> call.newLength >= offset)
  {
    if s.disabled then (s, answer)
    else
      match call
      case Same => (if answer == asked then s.(disabled := true) else s, answer)
      case Void => (s, s.base + s.size)
      case Mmap(_, _) =>
        if LooksLikeError(answer) then (s, 0)
        else
          var base := (answer + offset) % WORDS;
          (s.(base := base, size := 0), base)
      case Mremap(_, _, newLength) =>
        if LooksLikeError(answer) || s.base != (answer + offset) % WORDS then (s, s.base + s.size)
        else
          var size := newLength - offset;
          (s.(size := size), (s.base + size) % WORDS)
  }

  /** A call of the tracee, and the answer of the kernel to what it became. */
  datatype Turn = Turn(asked: Word, bssEnd: Word, answer: Word)

  /** The kernel gives errors or pages below the last one. */
  predicate KernelAnswers(offset: Word, answer: Word) {
    IsError(answer) || (IsPage(answer) && answer + offset < WORDS)
  }

  predicate Valid(s: State, offset: Word) {
    && 0 < offset && IsPage(offset)
    && s.base + s.size < WORDS && (s.base == 0 ==> s.size == 0) && (s.base != 0 ==> s.base >= offset)
  }

  function Step(s: State, offset: Word, t: Turn): (State, Word)
    requires Valid(s, offset)
  {
    ExitCall(s, offset, t.asked, EnterCall(s, offset, t.asked, t.bssEnd), t.answer)
  }

  lemma StepKeeps(s: State, offset: Word, t: Turn)
    requires Valid(s, offset) && KernelAnswers(offset, t.answer)
    ensures Valid(Step(s, offset, t).0, offset)
    ensures s.base != 0 ==> Step(s, offset, t).0.base == s.base
  {
    TruncatedTestIsExact(t.answer);
  }

  /** Once there is a heap, brk means what it means for the tracee: the break is where it asked, or where it was. */
  lemma BreakMoves(s: State, offset: Word, t: Turn)
    requires Valid(s, offset) && s.base != 0 && !s.disabled && KernelAnswers(offset, t.answer)
    ensures var (n, result) := Step(s, offset, t);
      && result == n.base + n.size && !n.disabled
      && (if t.asked >= s.base && !IsError(t.answer) && t.answer == s.base - offset then result == t.asked
          else n == s)
  {
    TruncatedTestIsExact(t.answer);
  }

  /** The first call makes an empty heap behind one discarded page, or fails with a null break. */
  lemma FirstBreak(s: State, offset: Word, t: Turn)
    requires Valid(s, offset) && s.base == 0 && !s.disabled && KernelAnswers(offset, t.answer) && t.asked == 0
    ensures var (n, result) := Step(s, offset, t);
      if IsError(t.answer) then n == s && result == 0
      else n == State(t.answer + offset, 0, false) && result == t.answer + offset
  {
    TruncatedTestIsExact(t.answer);
  }

  /** A call that is none of the emulation's business: its result is that of the kernel. */
  lemma LeftAlone(s: State, offset: Word, t: Turn)
    requires Valid(s, offset) && (s.disabled || (s.base == 0 && t.asked != 0))
    ensures EnterCall(s, offset, t.asked, t.bssEnd) == Same && Step(s, offset, t).1 == t.answer
    ensures Step(s, offset, t).0.base == s.base && Step(s, offset, t).0.size == s.size
    ensures Step(s, offset, t).0.disabled <==> s.disabled || t.answer == t.asked
  {
  }

  // ----- The place of the heap -----

  /** The end of the mapping that add_mapping appended last; 0 when there is none. */
  function BssEnd(mappings: seq<E.Mapping>): nat {
    if mappings == [] then 0 else mappings[|mappings| - 1].addr + mappings[|mappings| - 1].length
  }

  /** It lies behind the memory of every segment, on the first page boundary after the last one. */
  lemma BssEndsBehind(segments: seq<E.Segment>, page: nat)
    requires page > 0 && segments != [] && E.Ascending(segments, page)
    requires forall i :: 0 <= i < |segments| ==> segments[i].filesz <= segments[i].memsz
    ensures var last := segments[|segments| - 1];
      BssEnd(E.MappingsOfAll(segments, page)) == E.PageFloor(last.vaddr + last.memsz + page, page)
    ensures forall i :: 0 <= i < |segments| ==>
              segments[i].vaddr + segments[i].memsz < BssEnd(E.MappingsOfAll(segments, page))
  {
    var last := segments[|segments| - 1];
    var xs := E.MappingsOf(last, page);
    assert E.MappingsOfAll(segments, page)[|E.MappingsOfAll(segments, page)| - 1] == xs[|xs| - 1];
    E.AddPage(last.vaddr + last.filesz, page);
    E.AddPage(last.vaddr + last.memsz, page);
    E.FloorMonotone(last.vaddr + last.filesz, last.vaddr + last.memsz, page);
    E.FloorMonotone(last.vaddr, last.vaddr + last.filesz, page);
    forall i | 0 <= i < |segments|
      ensures segments[i].vaddr + segments[i].memsz < E.PageFloor(last.vaddr + last.memsz + page, page)
    {
      if i < |segments| - 1 {
        assert segments[i].vaddr + segments[i].memsz <= E.PageFloor(last.vaddr, page);
      }
    }
  }

  // ----- With the mapping of the heap -----

  /** The mapping that the kernel has for the heap: its address and length. */
  datatype Mapping = Mapping(address: nat, length: nat)

  /**
   What the emulation asks of the kernel: first one page at the end of the bss, later to make exactly the
   mapping of the heap end where the tracee wants its break; a break below the heap asks for nothing.
   */
  lemma AsksForTheHeap(s: State, offset: Word, asked: Word, bssEnd: Word, m: Option<Mapping>)
    requires Valid(s, offset) && Mapped(s, offset, m) && !s.disabled
    ensures var call := EnterCall(s, offset, asked, bssEnd);
      && (s.base == 0 && asked == 0 ==> call == Mmap(bssEnd, offset))
      && (s.base != 0 && asked < s.base ==> call == Void)
      && (s.base != 0 && asked >= s.base ==>
            && call.Mremap? && m == Some(Mapping(call.address, call.oldLength))
            && call.address + call.newLength == asked)
  {
  }

  /**
   The kernel: mmap answers where the mapping is; mremap without MREMAP_MAYMOVE either fails or
   resizes in place, and it grows nothing but a whole mapping.
   */
  predicate KernelDoes(call: Call, answer: Word, before: Option<Mapping>, after: Option<Mapping>) {
    match call
    case Mmap(_, length) => after == if IsError(answer) then before else Some(Mapping(answer, length))
    case Mremap(address, oldLength, newLength) =>
      if IsError(answer) then after == before
      else answer == address && before == Some(Mapping(address, oldLength)) && after == Some(Mapping(address, newLength))
    case _ => after == before
  }

  predicate Mapped(s: State, offset: Word, m: Option<Mapping>) {
    s.base != 0 ==> s.base >= offset && m == Some(Mapping(s.base - offset, s.size + offset))
  }

  function Run(s: State, offset: Word, turns: seq<Turn>): State
    decreases |turns|
  {
    if turns == [] || !Valid(s, offset) then s else Run(Step(s, offset, turns[0]).0, offset, turns[1..])
  }

  /** The mappings before each turn and after the last one, as the kernel makes them. */
  predicate KernelRun(s: State, offset: Word, turns: seq<Turn>, mappings: seq<Option<Mapping>>)
    decreases |turns|
  {
    && |mappings| == |turns| + 1
    && (turns != [] ==>
          && KernelAnswers(offset, turns[0].answer) && Valid(s, offset)
          && KernelDoes(EnterCall(s, offset, turns[0].asked, turns[0].bssEnd), turns[0].answer, mappings[0], mappings[1])
          && KernelRun(Step(s, offset, turns[0]).0, offset, turns[1..], mappings[1..]))
  }

  lemma StepStaysMapped(s: State, offset: Word, t: Turn, before: Option<Mapping>, after: Option<Mapping>)
    requires Valid(s, offset) && KernelAnswers(offset, t.answer) && Mapped(s, offset, before)
    requires KernelDoes(EnterCall(s, offset, t.asked, t.bssEnd), t.answer, before, after)
    ensures Mapped(Step(s, offset, t).0, offset, after)
  {
    TruncatedTestIsExact(t.answer);
  }

  /**
   Over every sequence of brk calls and every answer, the heap of PRoot is what the kernel has mapped:
   one discarded page, then exactly the bytes from the base to the break.
   */
  lemma {:induction false} HeapIsMapped(s: State, offset: Word, turns: seq<Turn>, mappings: seq<Option<Mapping>>)
    requires Valid(s, offset) && KernelRun(s, offset, turns, mappings) && Mapped(s, offset, mappings[0])
    ensures Valid(Run(s, offset, turns), offset) && Mapped(Run(s, offset, turns), offset, mappings[|turns|])
    decreases |turns|
  {
    if turns != [] {
      StepKeeps(s, offset, turns[0]);
      StepStaysMapped(s, offset, turns[0], mappings[0], mappings[1]);
      HeapIsMapped(Step(s, offset, turns[0]).0, offset, turns[1..], mappings[1..]);
    }
  }

  // ----- The code -----

  class Heap {
    var base: Word
    var size: Word
    var disabled: bool
    const heapOffset: Word

    ghost function Now(): State
      reads this
    {
      State(base, size, disabled)
    }

    constructor (pageSize: Word)
      requires 0 < pageSize && IsPage(pageSize)
      ensures Now() == State(0, 0, false) && heapOffset == pageSize && Valid(Now(), heapOffset)
    {
      base, size, disabled, heapOffset := 0, 0, false, pageSize;
    }

    method TranslateBrkEnter(asked: Word, mappings: seq<E.Mapping>) returns (call: Call)
      requires Valid(Now(), heapOffset) && mappings != [] && BssEnd(mappings) < WORDS
      ensures call == EnterCall(Now(), heapOffset, asked, BssEnd(mappings))
    {
      if disabled {
        return Same;
      }
      if base == 0 {
        if asked != 0 {
          return Same;
        }
        var bss := mappings[|mappings| - 1];
        return Mmap(bss.addr + bss.length, heapOffset);
      }
      if asked < base {
        return Void;
      }
      var newHeapSize := asked - base;
      return Mremap(base - heapOffset, size + heapOffset, newHeapSize + heapOffset);
    }

    method TranslateBrkExit(asked: Word, call: Call, answer: Word) returns (result: Word)
      requires Valid(Now(), heapOffset) && (call.Mremap? ==> call.newLength >= heapOffset)
      modifies this`base, this`size, this`disabled
      ensures (Now(), result) == ExitCall(old(Now()), heapOffset, asked, call, answer)
    {
      if disabled {
        return answer;
      }
      match call {
        case Void =>
          result := base + size;
        case Mmap(_, _) =>
          if LooksLikeError(answer) {
            return 0;
          }
          base := (answer + heapOffset) % WORDS;
          size := 0;
          result := base + size;
        case Mremap(_, _, newLength) =>
          if LooksLikeError(answer) || base != (answer + heapOffset) % WORDS {
            return base + size;
          }
          size := newLength - heapOffset;
          result := (base + size) % WORDS;
        case Same =>
          if answer == asked {
            disabled := true;
          }
          result := answer;
      }
    }
  }
}
