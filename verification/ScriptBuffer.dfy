/**
 The buffer that transfer_load_script fills and hands to the tracee (execve/exit.c:144-395).
 */
module ScriptBuffer {
  import opened Wrappers
  import opened ElfLoad
  import opened LoadScript

  /** Every word of the script is a machine word. */
  predicate AllBelow(words: seq<nat>, bound: nat) {
    forall i :: 0 <= i < |words| ==> words[i] < bound
  }

  // ---------------------------------------------------------------------
  // 64-bit words as pairs of 32-bit halves, the low half first
  // ---------------------------------------------------------------------

  /** `halves` holds `words` from its start on. */
  ghost predicate Holds(halves: seq<nat>, words: seq<nat>) {
    2 * |words| <= |halves|
    && forall i :: 0 <= i < |words| ==> halves[2 * i] == words[i] % WORD32 && halves[2 * i + 1] == words[i] / WORD32
  }

  /** What a 64-bit tracee reads in `count` words of the buffer. */
  function Words64(halves: seq<nat>, count: nat): seq<nat>
    requires 2 * count <= |halves|
  {
    seq(count, i requires 0 <= i < count => halves[2 * i] + WORD32 * halves[2 * i + 1])
  }

  function LowHalves(words: seq<nat>): (r: seq<nat>)
    ensures |r| == |words|
  {
    seq(|words|, i requires 0 <= i < |words| => words[i] % WORD32)
  }

  lemma HeldWords(halves: seq<nat>, words: seq<nat>)
    requires Holds(halves, words)
    ensures Words64(halves, |words|) == words
  {
  }

  /** Narrowing keeps the sequence of words exactly when all of them fit in 32 bits. */
  lemma NarrowingKeeps(words: seq<nat>)
    ensures LowHalves(words) == words <==> AllBelow(words, WORD32)
  {
    if LowHalves(words) == words {
      forall i | 0 <= i < |words| ensures words[i] < WORD32 {
        assert LowHalves(words)[i] == words[i];
      }
    }
  }

  class Buffer {
    const halves: array<nat>
    /** In 64-bit words. */
    var cursor: nat

    constructor (words: nat)
      ensures fresh(this) && fresh(halves) && halves.Length == 2 * words && cursor == 0
      ensures Written([])
    {
      halves := new nat[2 * words](_ => 0);
      cursor := 0;
    }

    /** The words before the cursor. */
    ghost predicate Written(words: seq<nat>)
      reads this, halves
    {
      cursor == |words| && Holds(halves[..], words)
    }

    method Put(word: nat, ghost words: seq<nat>)
      requires Written(words) && 2 * cursor < halves.Length && halves.Length % 2 == 0 && word < WORD64
      modifies this, halves
      ensures Written(words + [word])
    {
      halves[2 * cursor], halves[2 * cursor + 1] := word % WORD32, word / WORD32;
      cursor := cursor + 1;
    }

    /** One load statement, field by field. */
    method PutStatement(s: Statement, ghost words: seq<nat>)
      requires Written(words) && 2 * (|words| + |Words(s)|) <= halves.Length && halves.Length % 2 == 0
      requires AllBelow(Words(s), WORD64)
      modifies this, halves
      ensures Written(words + Words(s))
    {
      var fields := Words(s);
      var i := 0;
      assert words + fields[..0] == words;
      while i < |fields|
        invariant 0 <= i <= |fields| && Written(words + fields[..i])
      {
        Put(fields[i], words + fields[..i]);
        assert words + fields[..i] + [fields[i]] == words + fields[..i + 1];
        i := i + 1;
      }
      assert fields[..i] == fields;
    }

    /** transcript_mappings. */
    method TranscriptMappings(mappings: seq<Mapping>, ghost words: seq<nat>)
      requires Written(words) && 2 * (|words| + 6 * |mappings|) <= halves.Length && halves.Length % 2 == 0
      requires AllBelow(Script(MappingStatements(mappings)), WORD64)
      modifies this, halves
      ensures Written(words + Script(MappingStatements(mappings)))
    {
      hide Words, MappingStatement;
      var i := 0;
      ghost var all := MappingStatements(mappings);
      assert words + Script(all[..0]) == words;
      while i < |mappings|
        invariant 0 <= i <= |mappings| && Written(words + Script(all[..i])) && |Script(all[..i])| == 6 * i
      {
        ScriptTake(all, i);
        SixWords(mappings[i]);
        PutStatement(MappingStatement(mappings[i]), words + Script(all[..i]));
        assert words + Script(all[..i]) + Words(all[i]) == words + (Script(all[..i]) + Words(all[i]));
        i := i + 1;
      }
      assert all[..i] == all;
    }

    /** The in-place conversion for a 32-bit tracee. */
    method Narrow(ghost words: seq<nat>)
      requires Written(words)
      modifies halves
      ensures halves[..|words|] == LowHalves(words) && cursor == old(cursor)
    {
      var i := 0;
      while i < cursor
        invariant 0 <= i <= cursor && cursor == |words|
        invariant forall k :: 0 <= k < i ==> halves[k] == words[k] % WORD32
        invariant forall k :: 2 * i <= k < halves.Length ==> halves[k] == old(halves[k])
      {
        assert halves[2 * i] == words[i] % WORD32;
        halves[i] := halves[2 * i];
        i := i + 1;
      }
    }
  }

  lemma BelowBoth(a: seq<nat>, b: seq<nat>, bound: nat)
    ensures AllBelow(a + b, bound) <==> AllBelow(a, bound) && AllBelow(b, bound)
  {
    assert forall i :: 0 <= i < |a| ==> (a + b)[i] == a[i];
    assert forall i :: 0 <= i < |b| ==> (a + b)[|a| + i] == b[i];
  }

  lemma SixWords(m: Mapping)
    ensures |Words(MappingStatement(m))| == 6
  {
  }

  lemma TakeOneMore<T>(all: seq<T>, i: nat)
    requires i < |all|
    ensures all[..i + 1] == all[..i] + [all[i]]
    ensures all == all[..i + 1] + all[i + 1..]
  {
  }

  lemma ScriptTake(all: seq<Statement>, i: nat)
    requires i < |all|
    ensures Script(all[..i + 1]) == Script(all[..i]) + Words(all[i])
    ensures AllBelow(Script(all), WORD64) ==> AllBelow(Words(all[i]), WORD64)
  {
    hide Script, Words, AllBelow;
    TakeOneMore(all, i);
    ScriptSnoc(all[..i], all[i]);
    ScriptAppend(all[..i + 1], all[i + 1..]);
    BelowBoth(Script(all[..i + 1]), Script(all[i + 1..]), WORD64);
    BelowBoth(Script(all[..i]), Words(all[i]), WORD64);
  }

  // ---------------------------------------------------------------------
  // The strings area
  // ---------------------------------------------------------------------

  /** The C string at `at`. */
  function StringAt(text: string, at: nat): string
    requires at <= |text|
    decreases |text| - at
  {
    if at == |text| || text[at] == '\0' then "" else [text[at]] + StringAt(text, at + 1)
  }

  function Terminated(path: string): string { path + "\0" }

  function StringsArea(q: Request): string
    requires Fits(q)
  {
    Terminated(q.program.path)
      + (if q.interp.Some? then Terminated(q.interp.value.path) else "")
      + (if q.rawPath.Some? then Terminated(q.rawPath.value) else "")
      + seq(Padding(q), i => '\0')
  }

  lemma {:induction false} StringAtPath(before: string, path: string, after: string, k: nat)
    requires '\0' !in path && k <= |path|
    ensures StringAt(before + Terminated(path) + after, |before| + k) == path[k..]
    decreases |path| - k
  {
    var text := before + Terminated(path) + after;
    assert text[|before| + k] == Terminated(path)[k];
    if k < |path| {
      StringAtPath(before, path, after, k + 1);
      assert path[k..] == [path[k]] + path[k + 1..];
    }
  }

  /** Each string address of the script points, in the tracee, at its own string. */
  lemma StringAddresses(q: Request)
    requires Fits(q) && '\0' !in q.program.path
    requires q.interp.Some? ==> '\0' !in q.interp.value.path
    requires q.rawPath.Some? ==> '\0' !in q.rawPath.value
    ensures var base := String1(q);
      && |StringsArea(q)| == StringsSize(q)
      && StringAt(StringsArea(q), 0) == q.program.path
      && (q.interp.Some? ==> StringAt(StringsArea(q), String2(q) - base) == q.interp.value.path)
      && StringAt(StringsArea(q), String3(q) - base)
          == if q.rawPath.Some? then q.rawPath.value else q.program.path
  {
    hide StringAt, Fits;
    var a := Terminated(q.program.path);
    var b := if q.interp.Some? then Terminated(q.interp.value.path) else "";
    var c := if q.rawPath.Some? then Terminated(q.rawPath.value) else "";
    var d := seq(Padding(q), i => '\0');
    var text := StringsArea(q);
    assert text == "" + a + (b + c + d);
    StringAtPath("", q.program.path, b + c + d, 0);
    if q.interp.Some? {
      assert text == a + b + (c + d);
      StringAtPath(a, q.interp.value.path, c + d, 0);
    }
    if q.rawPath.Some? {
      assert text == (a + b) + c + d;
      StringAtPath(a + b, q.rawPath.value, d, 0);
    }
  }

  /**
   AT_EXECFN, with which the loader branches, points at the path that execve was given: the raw one, or
   that of the program when they are the same.
   */
  lemma ExecfnIsThePath(q: Request, rest: seq<nat>) returns (events: seq<Event>, branch: Event)
    requires Fits(q) && q.program.mappings != [] && '\0' !in q.program.path
    requires q.interp.Some? ==> '\0' !in q.interp.value.path
    requires q.rawPath.Some? ==> '\0' !in q.rawPath.value
    ensures Interpret(ScriptOf(q) + rest, Loader(true, 0)) == Some(events + [branch]) && branch.Branch?
    ensures 0 <= branch.info.atExecfn - String1(q) <= |StringsArea(q)|
    ensures StringAt(StringsArea(q), branch.info.atExecfn - String1(q))
         == if q.rawPath.Some? then q.rawPath.value else q.program.path
  {
    hide Interpret, ScriptOf, StringAt, StringsArea;
    var loading, info, atBase := LoaderLeaves(q, rest);
    StringAddresses(q);
    events, branch := loading + [CloseFd], Branch(q.traced, atBase, info);
    assert loading + [CloseFd, branch] == events + [branch];
  }

  // ---------------------------------------------------------------------
  // transfer_load_script
  // ---------------------------------------------------------------------

  /** What is written at the new stack pointer: the script, then the strings area. */
  datatype Transfer = Transfer(halves: seq<nat>, text: string, stackPointer: int)

  method TransferLoadScript(q: Request, is32: bool) returns (r: Transfer)
    requires Fits(q) && q.program.mappings != [] && AllBelow(ScriptOf(q), WORD64)
    ensures |r.halves| == 2 * ScriptWords(q) && r.text == StringsArea(q)
    ensures r.stackPointer == q.stackPointer - 8 * ScriptWords(q) - StringsSize(q)
    ensures r.stackPointer + 8 * ScriptWords(q) == String1(q) && String1(q) + |r.text| == q.stackPointer
    ensures !is32 ==> Words64(r.halves, ScriptWords(q)) == ScriptOf(q)
    ensures is32 ==> r.halves[..ScriptWords(q)] == LowHalves(ScriptOf(q))
  {
    StringsBelowStack(q);
    ScriptSize(q);
    var buffer := new Buffer(ScriptWords(q));
    FillScript(q, buffer);
    HeldWords(buffer.halves[..], ScriptOf(q));
    if is32 {
      buffer.Narrow(ScriptOf(q));
    }
    r := Transfer(buffer.halves[..], StringsArea(q), q.stackPointer - 8 * ScriptWords(q) - StringsSize(q));
  }

  /** One object: the statement that opens it, then its mappings. */
  method FillObject(buffer: Buffer, open: Statement, mappings: seq<Mapping>, ghost words: seq<nat>)
    requires buffer.Written(words) && buffer.halves.Length % 2 == 0 && |Words(open)| == 2
    requires 2 * (|words| + 2 + 6 * |mappings|) <= buffer.halves.Length
    requires AllBelow(Words(open), WORD64) && AllBelow(Script(MappingStatements(mappings)), WORD64)
    modifies buffer, buffer.halves
    ensures buffer.Written(words + Words(open) + Script(MappingStatements(mappings)))
  {
    buffer.PutStatement(open, words);
    buffer.TranscriptMappings(mappings, words + Words(open));
  }

  /** The program, then its interpreter. */
  method FillObjects(q: Request, buffer: Buffer)
    requires Fits(q) && q.program.mappings != [] && AllBelow(ScriptOf(q), WORD64)
    requires buffer.Written([]) && buffer.halves.Length == 2 * ScriptWords(q)
    modifies buffer, buffer.halves
    ensures var p := Parts(q); buffer.Written(p.0 + p.1 + p.2 + p.3)
  {
    hide Script, Words, AllBelow, MappingStatements;
    StringsBelowStack(q);
    PartsBelow(q);
    ghost var p := Parts(q);
    var string1 := q.stackPointer - StringsSize(q);
    FillObject(buffer, Open(string1), q.program.mappings, []);
    assert [] + p.0 + p.1 == p.0 + p.1;
    if q.interp.Some? {
      FillObject(buffer, OpenNext(string1 + Size1(q)), q.interp.value.mappings, p.0 + p.1);
    } else {
      assert p.0 + p.1 + p.2 + p.3 == p.0 + p.1;
    }
  }

  /** The statements of the script, written one after the other. */
  method FillScript(q: Request, buffer: Buffer)
    requires Fits(q) && q.program.mappings != [] && AllBelow(ScriptOf(q), WORD64)
    requires buffer.Written([]) && buffer.halves.Length == 2 * ScriptWords(q)
    modifies buffer, buffer.halves
    ensures buffer.Written(ScriptOf(q))
  {
    PartsBelow(q);
    SplitScript(q);
    FillObjects(q, buffer);
    FillTail(q, buffer, Parts(q).0 + Parts(q).1 + Parts(q).2 + Parts(q).3);
  }

  method FillTail(q: Request, buffer: Buffer, ghost words: seq<nat>)
    requires Fits(q) && q.program.mappings != [] && buffer.Written(words)
    requires AllBelow(Parts(q).4, WORD64) && AllBelow(Parts(q).5, WORD64)
    requires 2 * (|words| + |Parts(q).4| + 8) <= buffer.halves.Length && buffer.halves.Length % 2 == 0
    modifies buffer, buffer.halves
    ensures buffer.Written(words + Parts(q).4 + Parts(q).5)
  {
    if q.executableStack {
      buffer.PutStatement(MakeStackExec(StackPage(q)), words);
    } else {
      assert words + Parts(q).4 == words;
    }
    buffer.PutStatement(StartOf(q), words + Parts(q).4);
  }

  /** The script of the request, part by part. */
  function Parts(q: Request): (r: (seq<nat>, seq<nat>, seq<nat>, seq<nat>, seq<nat>, seq<nat>))
    requires Fits(q) && q.program.mappings != []
  {
    StringsBelowStack(q);
    (Words(Open(String1(q))), Script(MappingStatements(q.program.mappings)),
     if q.interp.Some? then Words(OpenNext(String2(q))) else [],
     if q.interp.Some? then Script(MappingStatements(q.interp.value.mappings)) else [],
     if q.executableStack then Words(MakeStackExec(StackPage(q))) else [],
     Words(StartOf(q)))
  }

  lemma PartsBelow(q: Request)
    requires Fits(q) && q.program.mappings != [] && AllBelow(ScriptOf(q), WORD64)
    ensures var p := Parts(q);
      && AllBelow(p.0, WORD64) && AllBelow(p.1, WORD64) && AllBelow(p.2, WORD64)
      && AllBelow(p.3, WORD64) && AllBelow(p.4, WORD64) && AllBelow(p.5, WORD64)
      && |p.0| == 2 && |p.1| == 6 * |q.program.mappings| && |p.5| == 8
      && |p.2| == (if q.interp.Some? then 2 else 0)
      && |p.3| == (if q.interp.Some? then 6 * |q.interp.value.mappings| else 0)
      && |p.4| == (if q.executableStack then 2 else 0)
  {
    SplitScript(q);
    var p := Parts(q);
    BelowBoth(p.0 + p.1 + p.2 + p.3 + p.4, p.5, WORD64);
    BelowBoth(p.0 + p.1 + p.2 + p.3, p.4, WORD64);
    BelowBoth(p.0 + p.1 + p.2, p.3, WORD64);
    BelowBoth(p.0 + p.1, p.2, WORD64);
    BelowBoth(p.0, p.1, WORD64);
    MappingsSize(q.program.mappings);
    if q.interp.Some? { MappingsSize(q.interp.value.mappings); }
  }

  lemma SplitInterp(q: Request)
    requires Fits(q) && q.program.mappings != [] && q.interp.Some?
    ensures String2(q) >= 0
    ensures Script([OpenNext(String2(q))] + MappingStatements(q.interp.value.mappings)) == Parts(q).2 + Parts(q).3
  {
    StringsBelowStack(q);
    ScriptCons(OpenNext(String2(q)), MappingStatements(q.interp.value.mappings));
  }

  lemma SplitScript(q: Request)
    requires Fits(q) && q.program.mappings != []
    ensures var p := Parts(q); ScriptOf(q) == p.0 + p.1 + p.2 + p.3 + p.4 + p.5
  {
    StringsBelowStack(q);
    var a := [Open(String1(q))] + MappingStatements(q.program.mappings);
    var b := if q.interp.Some? then [OpenNext(String2(q))] + MappingStatements(q.interp.value.mappings) else [];
    var c := if q.executableStack then [MakeStackExec(StackPage(q))] else [];
    var p := Parts(q);
    ScriptAppend(a + b, c);
    ScriptAppend(a, b);
    ScriptCons(Open(String1(q)), MappingStatements(q.program.mappings));
    if q.interp.Some? { SplitInterp(q); }
    OneSize(MakeStackExec(StackPage(q)));
    FiveParts(p.0, p.1, p.2, p.3, p.4);
  }

  lemma FiveParts(a: seq<nat>, b: seq<nat>, c: seq<nat>, d: seq<nat>, e: seq<nat>)
    ensures (a + b) + (c + d) + e == a + b + c + d + e
    ensures c == [] && d == [] ==> (a + b) + [] + e == a + b + c + d + e
  {
  }

  // ---------------------------------------------------------------------
  // Transfer, then load
  // ---------------------------------------------------------------------

  /** A 64-bit loader runs what was transferred; whatever lies above the script does not matter. */
  lemma TransferredScriptRuns(q: Request, halves: seq<nat>, above: seq<nat>)
    requires Fits(q) && q.program.mappings != [] && |halves| == 2 * ScriptWords(q)
    requires Words64(halves, ScriptWords(q)) == ScriptOf(q)
    ensures Interpret(Words64(halves, ScriptWords(q)) + above, Loader(true, 0))
         == Some(LoadEvents(q) + [CloseFd, Branch(q.traced, AtBase(q), StartOf(q).info)])
  {
    LoaderRunsTheRequest(q, above);
  }

  /** A 32-bit loader runs the narrowed script although its upper half is left over after it. */
  lemma NarrowedScriptRuns(q: Request, halves: seq<nat>)
    requires Fits(q) && q.program.mappings != [] && |halves| == 2 * ScriptWords(q)
    requires halves[..ScriptWords(q)] == LowHalves(ScriptOf(q)) && AllBelow(ScriptOf(q), WORD32)
    ensures Interpret(halves, Loader(true, 0))
         == Some(LoadEvents(q) + [CloseFd, Branch(q.traced, AtBase(q), StartOf(q).info)])
  {
    var left := halves[ScriptWords(q)..];
    NarrowingKeeps(ScriptOf(q));
    assert halves == ScriptOf(q) + left;
    LoaderRunsTheRequest(q, left);
  }

  /** The words of the script take a multiple of 16 bytes. */
  lemma ScriptBytes(q: Request) returns (n: nat)
    ensures 8 * ScriptWords(q) == 16 * n
  {
    n := 1 + 3 * |q.program.mappings| + (if q.interp.Some? then 1 + 3 * |q.interp.value.mappings| else 0)
      + (if q.executableStack then 1 else 0) + 4;
    assert ScriptWords(q) == 2 * n;
  }

  lemma MultipleBelow(x: nat, n: nat, m: nat)
    requires m in {4, 8, 16} && x % m == 0
    ensures (x - m * n) % m == 0
  {
    if n > 0 {
      MultipleBelow(x, n - 1, m);
      OneBelow(x - m * (n - 1), m);
      assert x - m * n == x - m * (n - 1) - m;
    }
  }

  lemma OneBelow(y: int, m: nat)
    requires m in {4, 8, 16} && y % m == 0
    ensures (y - m) % m == 0
  {
  }

  lemma SixteensBelow(x: nat, n: nat, alignment: nat)
    requires alignment in {4, 8, 16} && x % alignment == 0
    ensures (x - 16 * n) % alignment == 0
  {
    if alignment == 4 {
      MultipleBelow(x, 4 * n, 4);
    } else if alignment == 8 {
      MultipleBelow(x, 2 * n, 8);
    } else {
      MultipleBelow(x, n, 16);
    }
  }

  /** The new stack pointer is aligned like the bottom of the strings area. */
  lemma StackPointerAligned(q: Request)
    requires Fits(q) && q.alignment in {4, 8, 16}
    ensures (q.stackPointer - 8 * ScriptWords(q) - StringsSize(q)) % q.alignment == 0
  {
    hide ScriptWords;
    StringsBelowStack(q);
    var n := ScriptBytes(q);
    SixteensBelow(String1(q), n, q.alignment);
  }
}
