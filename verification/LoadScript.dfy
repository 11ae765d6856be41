/**
 The load script: its emission into a buffer of machine words (execve/exit.c:144-363), the in-place
 narrowing for 32-bit tracees, and the loader that interprets it (loader/loader.c:111-255).
 */
module LoadScript {
  import opened Wrappers
  import opened ElfLoad

  const WORD32: nat := 0x1_0000_0000
  const WORD64: nat := 0x1_0000_0000_0000_0000

  // ---------------------------------------------------------------------
  // Statements and their words (loader/script.h)
  // ---------------------------------------------------------------------

  datatype StartInfo = StartInfo(stackPointer: nat, entryPoint: nat, atPhdr: nat, atPhent: nat, atPhnum: nat,
                                 atEntry: nat, atExecfn: nat)

  datatype Statement =
    | OpenNext(path: nat)
    | Open(path: nat)
    | MmapFile(addr: nat, length: nat, prot: nat, offset: nat, clearLength: nat)
    | MmapAnon(addr: nat, length: nat, prot: nat, offset: nat, clearLength: nat)
    | MakeStackExec(start: nat)
    | Start(traced: bool, info: StartInfo)

  function Words(s: Statement): seq<nat> {
    match s
    case OpenNext(path) => [0, path]
    case Open(path) => [1, path]
    case MmapFile(addr, length, prot, offset, clear) => [2, addr, length, prot, offset, clear]
    case MmapAnon(addr, length, prot, offset, clear) => [3, addr, length, prot, offset, clear]
    case MakeStackExec(start) => [4, start]
    case Start(traced, i) =>
      [if traced then 5 else 6, i.stackPointer, i.entryPoint, i.atPhdr, i.atPhent, i.atPhnum, i.atEntry, i.atExecfn]
  }

  function Script(statements: seq<Statement>): seq<nat> {
    if statements == [] then []
    else Script(statements[..|statements| - 1]) + Words(statements[|statements| - 1])
  }

  // ---------------------------------------------------------------------
  // The loader
  // ---------------------------------------------------------------------

  /** The system calls of the loader, in order; every one of them is taken to succeed. */
  datatype Event =
    | CloseFd
    | OpenFile(path: nat)
    | MapFileAt(addr: nat, length: nat, prot: nat, offset: nat, clearLength: nat)
    | MapAnonAt(addr: nat, length: nat, prot: nat)
    | ProtectStack(start: nat)
    | Branch(traced: bool, atBase: nat, info: StartInfo)

  datatype Loader = Loader(resetAtBase: bool, atBase: nat)

  /** The effect of one statement on the loader and the kernel. */
  function Effect(s: Statement, l: Loader): (Loader, seq<Event>) {
    match s
    case OpenNext(path) => (Loader(true, l.atBase), [CloseFd, OpenFile(path)])
    case Open(path) => (Loader(true, l.atBase), [OpenFile(path)])
    case MmapFile(addr, length, prot, offset, clear) =>
      (if l.resetAtBase then Loader(false, addr) else l, [MapFileAt(addr, length, prot, offset, clear)])
    case MmapAnon(addr, length, prot, offset, clear) => (l, [MapAnonAt(addr, length, prot)])
    case MakeStackExec(start) => (l, [ProtectStack(start)])
    case Start(traced, info) => (l, [CloseFd, Branch(traced, l.atBase, info)])
  }

  /** The statement at the head of the words, with its length, or None where the loader gives up. */
  function Decode(words: seq<nat>): (r: Option<Statement>)
    ensures r.Some? ==> 2 <= |Words(r.value)| <= |words|
  {
    if |words| < 2 then None
    else if words[0] == 0 then Some(OpenNext(words[1]))
    else if words[0] == 1 then Some(Open(words[1]))
    else if words[0] == 4 then Some(MakeStackExec(words[1]))
    else if words[0] == 2 && |words| >= 6 then Some(MmapFile(words[1], words[2], words[3], words[4], words[5]))
    else if words[0] == 3 && |words| >= 6 then Some(MmapAnon(words[1], words[2], words[3], words[4], words[5]))
    else if (words[0] == 5 || words[0] == 6) && |words| >= 8 then
      Some(Start(words[0] == 5, StartInfo(words[1], words[2], words[3], words[4], words[5], words[6], words[7])))
    else None
  }

  function Prepend(events: seq<Event>, r: Option<seq<Event>>): Option<seq<Event>> {
    if r.Some? then Some(events + r.value) else None
  }

  lemma PrependTwice(a: seq<Event>, b: seq<Event>, r: Option<seq<Event>>)
    ensures Prepend(a, Prepend(b, r)) == Prepend(a + b, r)
    ensures Prepend([], r) == r
  {
    if r.Some? {
      assert a + (b + r.value) == (a + b) + r.value;
      assert [] + r.value == r.value;
    }
  }

  /** The events of the loader from these words on; None when it gives up before it starts the program. */
  function Interpret(words: seq<nat>, l: Loader): Option<seq<Event>>
    decreases |words|
  {
    match Decode(words)
    case None => None
    case Some(s) =>
      if s.Start? then Some(Effect(s, l).1)
      else Prepend(Effect(s, l).1, Interpret(words[|Words(s)|..], Effect(s, l).0))
  }

  /** The interpreter loop of the loader. */
  method RunLoader(words: seq<nat>) returns (trace: Option<seq<Event>>)
    ensures trace == Interpret(words, Loader(true, 0))
  {
    hide Words, Interpret;
    var events: seq<Event> := [];
    var cursor, resetAtBase, atBase := 0, true, 0;
    ghost var answer := Interpret(words, Loader(true, 0));
    assert words[0..] == words;
    PrependTwice([], [], answer);
    while true
      invariant 0 <= cursor <= |words|
      invariant answer == Prepend(events, Interpret(words[cursor..], Loader(resetAtBase, atBase)))
      decreases |words| - cursor
    {
      ghost var l := Loader(resetAtBase, atBase);
      var stmt := Decode(words[cursor..]);
      InterpretEnds(words[cursor..], l);
      if stmt.None? {
        return None;
      }
      var s := stmt.value;
      var (next, done) := Effect(s, Loader(resetAtBase, atBase));
      if s.Start? {
        return Some(events + done);
      }
      InterpretFrom(words, cursor, s, l);
      PrependTwice(events, done, Interpret(words[cursor + |Words(s)|..], next));
      events := events + done;
      cursor, resetAtBase, atBase := cursor + |Words(s)|, next.resetAtBase, next.atBase;
    }
  }

  lemma InterpretEnds(words: seq<nat>, l: Loader)
    ensures Decode(words).None? ==> Interpret(words, l) == None
    ensures Decode(words).Some? && Decode(words).value.Start? ==> Interpret(words, l) == Some(Effect(Decode(words).value, l).1)
  {
  }

  lemma InterpretFrom(words: seq<nat>, cursor: nat, s: Statement, l: Loader)
    requires cursor <= |words| && Decode(words[cursor..]) == Some(s) && !s.Start?
    ensures |Words(s)| >= 2 && cursor + |Words(s)| <= |words|
    ensures Interpret(words[cursor..], l)
         == Prepend(Effect(s, l).1, Interpret(words[cursor + |Words(s)|..], Effect(s, l).0))
  {
    assert words[cursor..][|Words(s)|..] == words[cursor + |Words(s)|..];
  }

  // ---------------------------------------------------------------------
  // Meaning of a list of statements
  // ---------------------------------------------------------------------

  function EffectAll(statements: seq<Statement>, l: Loader): (Loader, seq<Event>) {
    if statements == [] then (l, [])
    else
      var (m, events) := EffectAll(statements[..|statements| - 1], l);
      var (n, last) := Effect(statements[|statements| - 1], m);
      (n, events + last)
  }

  lemma DecodeWords(s: Statement, rest: seq<nat>)
    ensures Decode(Words(s) + rest) == Some(s)
  {
  }

  lemma ScriptSnoc(a: seq<Statement>, s: Statement)
    ensures Script(a + [s]) == Script(a) + Words(s)
  {
    assert (a + [s])[..|a|] == a;
  }

  lemma {:induction false} ScriptAppend(a: seq<Statement>, b: seq<Statement>)
    ensures Script(a + b) == Script(a) + Script(b)
  {
    hide Words;
    if b == [] {
      assert a + b == a;
    } else {
      var front, last := b[..|b| - 1], b[|b| - 1];
      calc {
        Script(a + b);
        { assert a + b == (a + front) + [last]; ScriptSnoc(a + front, last); }
        Script(a + front) + Words(last);
        { ScriptAppend(a, front); }
        (Script(a) + Script(front)) + Words(last);
        Script(a) + (Script(front) + Words(last));
      }
    }
  }

  lemma EffectAllSnoc(a: seq<Statement>, s: Statement, l: Loader)
    ensures EffectAll(a + [s], l).0 == Effect(s, EffectAll(a, l).0).0
    ensures EffectAll(a + [s], l).1 == EffectAll(a, l).1 + Effect(s, EffectAll(a, l).0).1
  {
    assert (a + [s])[..|a|] == a;
  }

  lemma {:induction false} EffectAllAppend(a: seq<Statement>, b: seq<Statement>, l: Loader)
    ensures EffectAll(a + b, l).0 == EffectAll(b, EffectAll(a, l).0).0
    ensures EffectAll(a + b, l).1 == EffectAll(a, l).1 + EffectAll(b, EffectAll(a, l).0).1
  {
    if b == [] {
      assert a + b == a;
      assert EffectAll(a, l).1 + [] == EffectAll(a, l).1;
    } else {
      var front, last := b[..|b| - 1], b[|b| - 1];
      var m := EffectAll(a, l).0;
      assert a + b == (a + front) + [last] && b == front + [last];
      EffectAllAppend(a, front, l);
      EffectAllSnoc(a + front, last, l);
      EffectAllSnoc(front, last, m);
      var x, y, z := EffectAll(a, l).1, EffectAll(front, m).1, Effect(last, EffectAll(front, m).0).1;
      assert (x + y) + z == x + (y + z);
    }
  }

  lemma EffectAllOne(s: Statement, l: Loader)
    ensures EffectAll([s], l) == Effect(s, l)
  {
    assert [s][..0] == [];
    var (m, events) := Effect(s, l);
    assert [] + events == events;
  }

  /** The events of `statements` and then of `start`. */
  function Trace(statements: seq<Statement>, start: Statement, l: Loader): seq<Event> {
    EffectAll(statements, l).1 + Effect(start, EffectAll(statements, l).0).1
  }

  lemma TraceCons(s: Statement, tail: seq<Statement>, start: Statement, l: Loader)
    ensures Trace([s] + tail, start, l) == Effect(s, l).1 + Trace(tail, start, Effect(s, l).0)
  {
    var m := Effect(s, l).0;
    EffectAllAppend([s], tail, l);
    EffectAllOne(s, l);
    var a, b, c := Effect(s, l).1, EffectAll(tail, m).1, Effect(start, EffectAll(tail, m).0).1;
    assert (a + b) + c == a + (b + c);
  }

  lemma ScriptCons(s: Statement, tail: seq<Statement>)
    ensures Script([s] + tail) == Words(s) + Script(tail)
  {
    ScriptAppend([s], tail);
    ScriptSnoc([], s);
    assert [] + [s] == [s] && Script([]) + Words(s) == Words(s);
  }

  /** The loader performs exactly the effects of the statements, up to the start. */
  lemma {:induction false} InterpretScript(statements: seq<Statement>, start: Statement, rest: seq<nat>, l: Loader)
    requires start.Start? && forall i :: 0 <= i < |statements| ==> !statements[i].Start?
    ensures Interpret(Script(statements) + Words(start) + rest, l) == Some(Trace(statements, start, l))
    decreases |statements|
  {
    if statements == [] {
      assert Script(statements) + Words(start) + rest == Words(start) + rest;
      DecodeWords(start, rest);
      var events := Effect(start, l).1;
      assert [] + events == events;
    } else {
      var s, tail := statements[0], statements[1..];
      assert statements == [s] + tail;
      InterpretScript(tail, start, rest, Effect(s, l).0);
      ScriptCons(s, tail);
      WordsAssociate(Words(s), Script(tail), Words(start), rest);
      InterpretOne(s, Script(tail) + Words(start) + rest, l);
      TraceCons(s, tail, start, l);
    }
  }

  lemma WordsAssociate(a: seq<nat>, b: seq<nat>, c: seq<nat>, d: seq<nat>)
    ensures (a + b) + c + d == a + (b + c + d)
  {
  }

  lemma InterpretOne(s: Statement, after: seq<nat>, l: Loader)
    requires !s.Start?
    ensures Interpret(Words(s) + after, l) == Prepend(Effect(s, l).1, Interpret(after, Effect(s, l).0))
  {
    DecodeWords(s, after);
    assert (Words(s) + after)[|Words(s)|..] == after;
  }

  // ---------------------------------------------------------------------
  // What transfer_load_script emits
  // ---------------------------------------------------------------------

  /** The part of a LoadInfo that the script depends on. */
  datatype Object = Object(path: string, mappings: seq<Mapping>, entry: nat)

  datatype Request = Request(
    program: Object, interp: Option<Object>, rawPath: Option<string>, phoff: nat, phent: nat, phnum: nat,
    executableStack: bool, traced: bool, stackPointer: nat, page: nat, alignment: nat)

  function MappingStatement(x: Mapping): Statement {
    if x.anonymous then MmapAnon(x.addr, x.length, x.prot, x.offset, x.clearLength)
    else MmapFile(x.addr, x.length, x.prot, x.offset, x.clearLength)
  }

  function MappingStatements(mappings: seq<Mapping>): (r: seq<Statement>)
    ensures |r| == |mappings|
    ensures forall i :: 0 <= i < |r| ==> r[i] == MappingStatement(mappings[i])
  {
    if mappings == [] then []
    else MappingStatements(mappings[..|mappings| - 1]) + [MappingStatement(mappings[|mappings| - 1])]
  }

  function Size1(q: Request): nat { |q.program.path| + 1 }

  function Size2(q: Request): nat { if q.interp.Some? then |q.interp.value.path| + 1 else 0 }

  function Size3(q: Request): nat { if q.rawPath.Some? then |q.rawPath.value| + 1 else 0 }

  /** The stack can hold the strings. */
  predicate Fits(q: Request) {
    q.alignment > 0 && q.page > 0 && Size1(q) + Size2(q) + Size3(q) <= q.stackPointer
  }

  function Padding(q: Request): nat
    requires Fits(q)
  {
    (q.stackPointer - Size1(q) - Size2(q) - Size3(q)) % q.alignment
  }

  function StringsSize(q: Request): nat
    requires Fits(q)
  {
    Size1(q) + Size2(q) + Size3(q) + Padding(q)
  }

  function String1(q: Request): int
    requires Fits(q)
  {
    q.stackPointer - StringsSize(q)
  }

  function String2(q: Request): int
    requires Fits(q)
  {
    String1(q) + Size1(q)
  }

  function String3(q: Request): int
    requires Fits(q)
  {
    if Size3(q) == 0 then String1(q) else String1(q) + Size1(q) + Size2(q)
  }

  lemma StringsBelowStack(q: Request)
    requires Fits(q)
    ensures String1(q) >= 0 && String1(q) % q.alignment == 0
  {
    var x := q.stackPointer - Size1(q) - Size2(q) - Size3(q);
    FloorIsMultiple(x, q.alignment);
  }

  function EntryPoint(q: Request): nat {
    if q.interp.Some? then q.interp.value.entry else q.program.entry
  }

  function StartOf(q: Request): Statement
    requires Fits(q) && q.program.mappings != []
  {
    StringsBelowStack(q);
    Start(q.traced, StartInfo(q.stackPointer, EntryPoint(q), q.phoff + q.program.mappings[0].addr, q.phent, q.phnum,
                              q.program.entry, String3(q)))
  }

  /** The page of the initial stack pointer. */
  function StackPage(q: Request): (r: nat)
    requires Fits(q)
  {
    PageFloor(q.stackPointer, q.page)
  }

  function StatementsOf(q: Request): seq<Statement>
    requires Fits(q)
  {
    StringsBelowStack(q);
    [Open(String1(q))] + MappingStatements(q.program.mappings)
      + (if q.interp.Some? then [OpenNext(String2(q))] + MappingStatements(q.interp.value.mappings) else [])
      + (if q.executableStack then [MakeStackExec(StackPage(q))] else [])
  }

  /** The number of words that the code allocates for the script. */
  function ScriptWords(q: Request): nat {
    2 + 6 * |q.program.mappings| + (if q.interp.Some? then 2 + 6 * |q.interp.value.mappings| else 0)
      + (if q.executableStack then 2 else 0) + 8
  }

  // ---------------------------------------------------------------------
  // What the loader then does
  // ---------------------------------------------------------------------

  function MapEvent(x: Mapping): Event {
    if x.anonymous then MapAnonAt(x.addr, x.length, x.prot)
    else MapFileAt(x.addr, x.length, x.prot, x.offset, x.clearLength)
  }

  function MapEvents(mappings: seq<Mapping>): (r: seq<Event>)
    ensures |r| == |mappings|
    ensures forall i :: 0 <= i < |r| ==> r[i] == MapEvent(mappings[i])
  {
    if mappings == [] then []
    else MapEvents(mappings[..|mappings| - 1]) + [MapEvent(mappings[|mappings| - 1])]
  }

  /** The address of the first file mapping. */
  function FirstFile(mappings: seq<Mapping>): Option<nat> {
    if mappings == [] then None
    else if FirstFile(mappings[..|mappings| - 1]).Some? then FirstFile(mappings[..|mappings| - 1])
    else if mappings[|mappings| - 1].anonymous then None
    else Some(mappings[|mappings| - 1].addr)
  }

  /** AT_BASE: the first file mapping of the last object that has one, or 0. */
  function AtBase(q: Request): nat {
    if q.interp.Some? && FirstFile(q.interp.value.mappings).Some? then FirstFile(q.interp.value.mappings).value
    else if FirstFile(q.program.mappings).Some? then FirstFile(q.program.mappings).value
    else 0
  }

  lemma {:induction false} MapEffects(mappings: seq<Mapping>, l: Loader)
    ensures EffectAll(MappingStatements(mappings), l).1 == MapEvents(mappings)
    ensures EffectAll(MappingStatements(mappings), l).0 ==
      if l.resetAtBase && FirstFile(mappings).Some? then Loader(false, FirstFile(mappings).value) else l
  {
    if mappings != [] {
      var front, last := mappings[..|mappings| - 1], mappings[|mappings| - 1];
      MapEffects(front, l);
      EffectAllSnoc(MappingStatements(front), MappingStatement(last), l);
    }
  }

  /** Opens, mappings and protection of the stack, in the order of the request. */
  function LoadEvents(q: Request): seq<Event>
    requires Fits(q)
  {
    StringsBelowStack(q);
    [OpenFile(String1(q))] + MapEvents(q.program.mappings)
      + (if q.interp.Some? then [CloseFd, OpenFile(String2(q))] + MapEvents(q.interp.value.mappings) else [])
      + (if q.executableStack then [ProtectStack(StackPage(q))] else [])
  }

  lemma ProgramEffects(path: nat, mappings: seq<Mapping>)
    ensures EffectAll([Open(path)] + MappingStatements(mappings), Loader(true, 0)).1
         == [OpenFile(path)] + MapEvents(mappings)
    ensures var l := EffectAll([Open(path)] + MappingStatements(mappings), Loader(true, 0)).0;
      l.atBase == if FirstFile(mappings).Some? then FirstFile(mappings).value else 0
  {
    var l0 := Loader(true, 0);
    EffectAllAppend([Open(path)], MappingStatements(mappings), l0);
    EffectAllOne(Open(path), l0);
    MapEffects(mappings, Loader(true, 0));
  }

  lemma InterpEffects(path: nat, mappings: seq<Mapping>, l: Loader)
    ensures EffectAll([OpenNext(path)] + MappingStatements(mappings), l).1
         == [CloseFd, OpenFile(path)] + MapEvents(mappings)
    ensures EffectAll([OpenNext(path)] + MappingStatements(mappings), l).0.atBase
         == if FirstFile(mappings).Some? then FirstFile(mappings).value else l.atBase
  {
    EffectAllAppend([OpenNext(path)], MappingStatements(mappings), l);
    EffectAllOne(OpenNext(path), l);
    MapEffects(mappings, Loader(true, l.atBase));
  }

  lemma StackEffects(q: Request, l: Loader)
    requires Fits(q)
    ensures EffectAll(if q.executableStack then [MakeStackExec(StackPage(q))] else [], l)
         == (l, if q.executableStack then [ProtectStack(StackPage(q))] else [])
  {
    EffectAllOne(MakeStackExec(StackPage(q)), l);
  }

  lemma StatementEffects(q: Request)
    requires Fits(q)
    ensures EffectAll(StatementsOf(q), Loader(true, 0)).1 == LoadEvents(q)
    ensures EffectAll(StatementsOf(q), Loader(true, 0)).0.atBase == AtBase(q)
  {
    StringsBelowStack(q);
    var l0 := Loader(true, 0);
    var a := [Open(String1(q))] + MappingStatements(q.program.mappings);
    var b := if q.interp.Some? then [OpenNext(String2(q))] + MappingStatements(q.interp.value.mappings) else [];
    var c := if q.executableStack then [MakeStackExec(StackPage(q))] else [];
    var l1 := EffectAll(a, l0).0;
    var l2 := EffectAll(b, l1).0;
    assert StatementsOf(q) == a + b + c;
    EffectAllAppend(a + b, c, l0);
    EffectAllAppend(a, b, l0);
    ProgramEffects(String1(q), q.program.mappings);
    if q.interp.Some? { InterpEffects(String2(q), q.interp.value.mappings, l1); }
    StackEffects(q, l2);
  }

  /** The words that the code writes, before any narrowing. */
  function ScriptOf(q: Request): seq<nat>
    requires Fits(q) && q.program.mappings != []
  {
    Script(StatementsOf(q)) + Words(StartOf(q))
  }

  /**
   The loader performs exactly the opens and mappings of the program and then of its interpreter, and
   branches to the interpreter's entry if there is one, with AT_BASE at the first file mapping of the
   last opened object; what follows the script in memory does not matter.
   */
  lemma LoaderRunsTheRequest(q: Request, rest: seq<nat>)
    requires Fits(q) && q.program.mappings != []
    ensures Interpret(ScriptOf(q) + rest, Loader(true, 0))
         == Some(LoadEvents(q) + [CloseFd, Branch(q.traced, AtBase(q), StartOf(q).info)])
    ensures StartOf(q).info.entryPoint == if q.interp.Some? then q.interp.value.entry else q.program.entry
  {
    NoStart(q);
    StatementEffects(q);
    InterpretScript(StatementsOf(q), StartOf(q), rest, Loader(true, 0));
  }

  lemma {:induction false} FirstFileFirst(mappings: seq<Mapping>)
    requires mappings != [] && !mappings[0].anonymous
    ensures FirstFile(mappings) == Some(mappings[0].addr)
    decreases |mappings|
  {
    if |mappings| > 1 {
      FirstFileFirst(mappings[..|mappings| - 1]);
    }
  }

  /**
   How the loader leaves: it makes the page of the stack executable if that was asked for, closes its file,
   and branches, ptraced or not, to the entry of the interpreter or of the program, with the initial stack
   pointer.  AT_BASE is where the last opened object was mapped; AT_ENTRY, AT_PHDR, AT_PHENT and AT_PHNUM
   are those of the program, with an interpreter too.
   */
  lemma LoaderLeaves(q: Request, rest: seq<nat>) returns (events: seq<Event>, info: StartInfo, atBase: nat)
    requires Fits(q) && q.program.mappings != []
    ensures Interpret(ScriptOf(q) + rest, Loader(true, 0))
         == Some(events + [CloseFd, Branch(q.traced, atBase, info)])
    ensures info.stackPointer == q.stackPointer
    ensures info.entryPoint == if q.interp.Some? then q.interp.value.entry else q.program.entry
    ensures info.atEntry == q.program.entry && info.atPhent == q.phent && info.atPhnum == q.phnum
    ensures info.atPhdr == q.program.mappings[0].addr + q.phoff
    ensures info.atExecfn == if q.rawPath.Some? then String1(q) + Size1(q) + Size2(q) else String1(q)
    ensures q.interp.None? && !q.program.mappings[0].anonymous ==> atBase == q.program.mappings[0].addr
    ensures q.interp.Some? && q.interp.value.mappings != [] && !q.interp.value.mappings[0].anonymous ==>
              atBase == q.interp.value.mappings[0].addr
    ensures q.executableStack ==>
      && events != [] && events[|events| - 1].ProtectStack? && events[|events| - 1].start % q.page == 0
      && events[|events| - 1].start <= q.stackPointer < events[|events| - 1].start + q.page
    ensures !q.executableStack ==> forall i :: 0 <= i < |events| ==> !events[i].ProtectStack?
  {
    hide Interpret, ScriptOf;
    LoaderRunsTheRequest(q, rest);
    events, info, atBase := LoadEvents(q), StartOf(q).info, AtBase(q);
    FloorIsMultiple(q.stackPointer, q.page);
    if q.interp.None? && !q.program.mappings[0].anonymous {
      FirstFileFirst(q.program.mappings);
    }
    if q.interp.Some? && q.interp.value.mappings != [] && !q.interp.value.mappings[0].anonymous {
      FirstFileFirst(q.interp.value.mappings);
    }
  }

  lemma NoStart(q: Request)
    requires Fits(q)
    ensures forall i :: 0 <= i < |StatementsOf(q)| ==> !StatementsOf(q)[i].Start?
  {
  }

  // ---------------------------------------------------------------------
  // Sizes
  // ---------------------------------------------------------------------

  lemma {:induction false} MappingsSize(mappings: seq<Mapping>)
    ensures |Script(MappingStatements(mappings))| == 6 * |mappings|
  {
    if mappings != [] {
      var front, last := mappings[..|mappings| - 1], mappings[|mappings| - 1];
      MappingsSize(front);
      ScriptSnoc(MappingStatements(front), MappingStatement(last));
    }
  }

  lemma OneSize(s: Statement)
    ensures Script([s]) == Words(s)
  {
    ScriptSnoc([], s);
    assert [] + [s] == [s] && Script([]) + Words(s) == Words(s);
  }

  /** The computed size of the script is what is written. */
  lemma ScriptSize(q: Request)
    requires Fits(q) && q.program.mappings != []
    ensures |ScriptOf(q)| == ScriptWords(q)
  {
    StringsBelowStack(q);
    var a1, a2 := [Open(String1(q))], MappingStatements(q.program.mappings);
    var b := if q.interp.Some? then [OpenNext(String2(q))] + MappingStatements(q.interp.value.mappings) else [];
    var c := if q.executableStack then [MakeStackExec(StackPage(q))] else [];
    assert StatementsOf(q) == a1 + a2 + b + c;
    ScriptAppend(a1 + a2 + b, c);
    ScriptAppend(a1 + a2, b);
    ScriptAppend(a1, a2);
    OneSize(Open(String1(q)));
    MappingsSize(q.program.mappings);
    if q.interp.Some? {
      ScriptAppend([OpenNext(String2(q))], MappingStatements(q.interp.value.mappings));
      OneSize(OpenNext(String2(q)));
      MappingsSize(q.interp.value.mappings);
    }
    if q.executableStack { OneSize(MakeStackExec(StackPage(q))); }
  }
}
