/**
 Arrays of pointers to strings in the memory of a tracee (execve/aoxp.c:90-439), and the rewriting of
 argv[] for scripts (execve/shebang.c:231-304), on 64-bit tracees.
 */
module Argv {
  import opened Collections
  import opened Wrappers
  import opened TraceeMemory
  import opened Words

  /** The bytes of a C string, without its terminator. */
  type Text = seq<nat>

  /** An entry: where its string is in the tracee, or its new value that is not there yet. */
  datatype XPointer = XPointer(remote: nat, local: Option<Text>)

  const MAXSYMLINKS: nat := 20

  // ----- Editing -----

  class ArrayOfXPointers {
    var xpointers: seq<XPointer>

    constructor (xs: seq<XPointer>)
      ensures xpointers == xs
    {
      xpointers := xs;
    }

    /** resize_array_of_xpointers: make room before `index`, or remove the entries before it. */
    method Resize(index: nat, delta: int)
      requires index < |xpointers| && index + delta >= 0
      modifies this
      ensures delta >= 0 ==> |xpointers| == |old(xpointers)| + delta
      ensures delta >= 0 ==> xpointers[..index] == old(xpointers[..index])
      ensures delta >= 0 ==> xpointers[index + delta..] == old(xpointers[index..])
      ensures delta >= 0 ==> forall i :: index <= i < index + delta ==> xpointers[i] == XPointer(0, None)
      ensures delta <= 0 ==> xpointers == old(xpointers[..index + delta]) + old(xpointers[index..])
    {
      if delta == 0 {
        return;
      }
      var xs, n := xpointers, |xpointers|;
      if delta > 0 {
        var grown := xs + seq(delta, _ => XPointer(0, None));
        var moved := seq(n + delta, i requires 0 <= i < n + delta =>
          if i < index + delta then grown[i] else xs[i - delta]);
        xpointers := seq(n + delta, i requires 0 <= i < n + delta =>
          if index <= i < index + delta then XPointer(0, None) else moved[i]);
      } else {
        var moved := seq(n, i requires 0 <= i < n =>
          if index + delta <= i < n + delta then xs[i - delta] else xs[i]);
        xpointers := moved[..n + delta];
      }
    }

    /** write_xpointees. */
    method Write(index: nat, values: seq<Text>)
      requires index + |values| <= |xpointers|
      modifies this
      ensures |xpointers| == |old(xpointers)|
      ensures forall i :: 0 <= i < |xpointers| ==>
                xpointers[i] == if index <= i < index + |values| then old(xpointers[i]).(local := Some(values[i - index]))
                                else old(xpointers[i])
    {
      var i := 0;
      while i < |values|
        invariant 0 <= i <= |values| && |xpointers| == |old(xpointers)|
        invariant forall k :: 0 <= k < |xpointers| ==>
                    xpointers[k] == if index <= k < index + i then old(xpointers[k]).(local := Some(values[k - index]))
                                    else old(xpointers[k])
      {
        xpointers := xpointers[index + i := xpointers[index + i].(local := Some(values[i]))];
        i := i + 1;
      }
    }

    /** The two steps of expand_shebang on argv[]: room for what comes in front, then the new values. */
    method Prepend(interpreter: Text, argument: Text, file: Text)
      requires xpointers != []
      modifies this
      ensures Prepended(old(xpointers), Front(interpreter, argument, file), xpointers)
    {
      var empty := if |xpointers| == 1 then 1 else 0;
      if argument != [] {
        Resize(0, 2 + empty);
        RoomInFront(old(xpointers), xpointers, 2 + empty, 3);
        Write(0, [interpreter, argument, file]);
      } else {
        Resize(0, 1 + empty);
        RoomInFront(old(xpointers), xpointers, 1 + empty, 2);
        Write(0, [interpreter, file]);
      }
    }
  }

  /** With room for `n` values the rest of the array follows. */
  lemma RoomInFront(xs: seq<XPointer>, room: seq<XPointer>, delta: nat, n: nat)
    requires xs != [] && |room| == |xs| + delta && room[delta..] == xs
    requires n == if |xs| == 1 then delta else delta + 1
    ensures room[n..] == if |xs| == 1 then xs else xs[1..]
  {
    assert forall i :: n <= i < |room| ==> room[i] == room[delta..][i - delta];
  }

  /** interpreter [argument] filename */
  function Front(interpreter: Text, argument: Text, file: Text): seq<Text> {
    if argument != [] then [interpreter, argument, file] else [interpreter, file]
  }

  /** The new values come first; then what followed argv[0], or the final NULL when there was no argv[0]. */
  ghost predicate Prepended(xs: seq<XPointer>, front: seq<Text>, ys: seq<XPointer>)
    requires xs != []
  {
    var rest := if |xs| == 1 then xs else xs[1..];
    && |ys| == |front| + |rest|
    && (forall i :: 0 <= i < |front| ==> ys[i].local == Some(front[i]))
    && ys[|front|..] == rest
  }

  // ----- What an array means -----

  /** `t` is the string at an address. */
  ghost predicate TextAt(m: Memory, address: nat, t: Text) {
    StringAt(m, address, |t|) && BytesAt(m, address, |t|) == t
  }

  ghost predicate IsText(t: Text) {
    forall i :: 0 <= i < |t| ==> t[i] != 0
  }

  /** An entry stands for a string: its new value, or what is in the tracee. */
  ghost predicate Means(m: Memory, x: XPointer, t: Text) {
    if x.local.Some? then x.local.value == t else x.remote != 0 && TextAt(m, x.remote, t)
  }

  /** The array stands for these strings and a final NULL. */
  ghost predicate MeansAll(m: Memory, xs: seq<XPointer>, argv: seq<Text>) {
    && |xs| == |argv| + 1 && xs[|argv|] == XPointer(0, None)
    && forall i {:trigger Means(m, xs[i], argv[i])} :: 0 <= i < |argv| ==> Means(m, xs[i], argv[i])
  }

  /** "interpreter [argument] filename arg..." of execve(2). */
  function Interpreted(argv: seq<Text>, interpreter: Text, argument: Text, file: Text): seq<Text> {
    Front(interpreter, argument, file) + (if argv == [] then [] else argv[1..])
  }

  /** One turn rewrites argv[] as execve(2) says, also when it was empty. */
  lemma PrependedMeans(m: Memory, xs: seq<XPointer>, argv: seq<Text>, interpreter: Text, argument: Text, file: Text,
                       ys: seq<XPointer>)
    requires MeansAll(m, xs, argv) && Prepended(xs, Front(interpreter, argument, file), ys)
    ensures MeansAll(m, ys, Interpreted(argv, interpreter, argument, file))
  {
    var front := Front(interpreter, argument, file);
    var after := Interpreted(argv, interpreter, argument, file);
    var rest := if |xs| == 1 then xs else xs[1..];
    assert ys == ys[..|front|] + rest;
    forall i | 0 <= i < |after|
      ensures Means(m, ys[i], after[i])
    {
      if i >= |front| {
        assert ys[i] == rest[i - |front|] == xs[i - |front| + 1];
        assert after[i] == argv[i - |front| + 1];
        assert Means(m, xs[i - |front| + 1], argv[i - |front| + 1]);
      }
    }
    assert ys[|after|] == rest[|rest| - 1] == xs[|xs| - 1];
  }

  // ----- expand_shebang -----

  /** What the first line of a file asks for; an empty argument is none. */
  datatype Shebang = Shebang(interpreter: Text, argument: Text)

  /** The program to execute in the end, whether it was found through scripts, and its argv[]. */
  datatype Expansion = Expansion(program: Text, found: bool, argv: seq<Text>)

  /**
   The rule of execve(2) applied again while the interpreter is a script.  `check` is whether a file
   can be executed, `inspect` what its first line says.
   */
  function Expand(check: Text -> Option<nat>, inspect: Text -> Result<Option<Shebang>>,
                  program: Text, found: bool, argv: seq<Text>, i: nat): Result<Expansion>
    requires i <= MAXSYMLINKS
    decreases MAXSYMLINKS - i
  {
    if i == MAXSYMLINKS then Err(ELOOP)
    else if check(program).Some? then Err(check(program).value)
    else
      match inspect(program)
      case Err(e) => Err(e)
      case Ok(None) => Ok(Expansion(program, found, argv))
      case Ok(Some(s)) =>
        if check(s.interpreter).Some? then Err(check(s.interpreter).value)
        else
          Expand(check, inspect, s.interpreter, true, Interpreted(argv, s.interpreter, s.argument, program), i + 1)
  }

  // ----- The chain of scripts -----

  /** `files` begins with a script, each names the next one as its interpreter, with these arguments. */
  ghost predicate Scripts(check: Text -> Option<nat>, inspect: Text -> Result<Option<Shebang>>,
                          files: seq<Text>, arguments: seq<Text>) {
    && |files| == |arguments| + 1
    && (forall j :: 0 <= j < |files| ==> check(files[j]).None?)
    && (forall j :: 0 <= j < |arguments| ==> inspect(files[j]) == Ok(Some(Shebang(files[j + 1], arguments[j]))))
  }

  /** "interpreter [argument] filename", where the filename is a script again that stands for its own line. */
  function CommandLine(files: seq<Text>, arguments: seq<Text>): (r: seq<Text>)
    requires |files| == |arguments| + 1
    ensures r != [] && r[0] == files[|arguments|] && r[|r| - 1] == files[0]
    decreases |arguments|
  {
    var k := |arguments|;
    if k == 0 then [files[0]]
    else
      [files[k]] + (if arguments[k - 1] == [] then [] else [arguments[k - 1]])
        + CommandLine(files[..k], arguments[..k - 1])
  }

  function Tail(argv: seq<Text>): seq<Text> {
    if argv == [] then [] else argv[1..]
  }

  /** What execve(2) executes for the last of the files. */
  function Expanded(files: seq<Text>, arguments: seq<Text>, argv: seq<Text>): Expansion
    requires |files| == |arguments| + 1
  {
    Expansion(files[|arguments|], arguments != [],
              if arguments == [] then argv else CommandLine(files, arguments) + Tail(argv))
  }

  lemma OneMoreScript(files: seq<Text>, arguments: seq<Text>, argv: seq<Text>, j: nat)
    requires |files| == |arguments| + 1 && j < |arguments|
    ensures Interpreted(Expanded(files[..j + 1], arguments[..j], argv).argv, files[j + 1], arguments[j], files[j])
         == Expanded(files[..j + 2], arguments[..j + 1], argv).argv
  {
    var line, now := CommandLine(files[..j + 1], arguments[..j]), Expanded(files[..j + 1], arguments[..j], argv).argv;
    NextLine(files, arguments, j);
    if j == 0 {
      assert line == [files[0]] + [];
      Nested(line, now, [], Tail(argv), files[1], arguments[0]);
    } else {
      Nested(line, now, line[1..], Tail(argv), files[j + 1], arguments[j]);
    }
  }

  lemma NextLine(files: seq<Text>, arguments: seq<Text>, j: nat)
    requires |files| == |arguments| + 1 && j < |arguments|
    ensures CommandLine(files[..j + 2], arguments[..j + 1])
         == [files[j + 1]] + (if arguments[j] == [] then [] else [arguments[j]]) + CommandLine(files[..j + 1], arguments[..j])
  {
    assert files[..j + 2][..j + 1] == files[..j + 1] && arguments[..j + 1][..j] == arguments[..j];
  }

  /** A command line in front of what follows argv[0]. */
  lemma Nested(line: seq<Text>, now: seq<Text>, words: seq<Text>, tail: seq<Text>, interpreter: Text, argument: Text)
    requires line != [] && line == [line[0]] + words
    requires (if now == [] then [] else now[1..]) == words + tail
    ensures Interpreted(now, interpreter, argument, line[0])
         == [interpreter] + (if argument == [] then [] else [argument]) + line + tail
  {
    assert [line[0]] + (words + tail) == line + tail;
  }

  /** In the middle of a chain, the rule goes on with what the scripts so far have made of argv[]. */
  lemma {:induction false} AlongTheChain(check: Text -> Option<nat>, inspect: Text -> Result<Option<Shebang>>,
                                         files: seq<Text>, arguments: seq<Text>, argv: seq<Text>, j: nat)
    requires Scripts(check, inspect, files, arguments) && j <= |arguments| && j <= MAXSYMLINKS
    requires |arguments| <= MAXSYMLINKS
    ensures var now := Expanded(files[..j + 1], arguments[..j], argv);
      Expand(check, inspect, files[0], false, argv, 0) == Expand(check, inspect, files[j], now.found, now.argv, j)
  {
    if j > 0 {
      AlongTheChain(check, inspect, files, arguments, argv, j - 1);
      OneMoreScript(files, arguments, argv, j - 1);
      assert inspect(files[j - 1]) == Ok(Some(Shebang(files[j], arguments[j - 1])));
    }
  }

  /**
   A chain of fewer than MAXSYMLINKS scripts that ends in a program: that program is executed, with the
   command lines of all the scripts nested into each other, the path of the user last, and then the
   original arguments.
   */
  lemma ScriptsAreExpanded(check: Text -> Option<nat>, inspect: Text -> Result<Option<Shebang>>,
                           files: seq<Text>, arguments: seq<Text>, argv: seq<Text>)
    requires Scripts(check, inspect, files, arguments) && inspect(files[|arguments|]) == Ok(None)
    requires |arguments| < MAXSYMLINKS
    ensures Expand(check, inspect, files[0], false, argv, 0) == Ok(Expanded(files, arguments, argv))
  {
    AlongTheChain(check, inspect, files, arguments, argv, |arguments|);
    assert files[..|arguments| + 1] == files && arguments[..|arguments|] == arguments;
  }

  /** MAXSYMLINKS scripts are too many, whatever comes after them. */
  lemma TooManyScripts(check: Text -> Option<nat>, inspect: Text -> Result<Option<Shebang>>,
                       files: seq<Text>, arguments: seq<Text>, argv: seq<Text>)
    requires Scripts(check, inspect, files, arguments) && |arguments| == MAXSYMLINKS
    ensures Expand(check, inspect, files[0], false, argv, 0) == Err(ELOOP)
  {
    AlongTheChain(check, inspect, files, arguments, argv, |arguments|);
  }

  /** The first file that cannot be executed or read, at the end of a chain of scripts, gives the error. */
  lemma ChainBreaks(check: Text -> Option<nat>, inspect: Text -> Result<Option<Shebang>>,
                    files: seq<Text>, arguments: seq<Text>, argv: seq<Text>, last: Shebang)
    requires Scripts(check, inspect, files, arguments) && |arguments| < MAXSYMLINKS
    ensures inspect(files[|arguments|]).Err? ==>
      Expand(check, inspect, files[0], false, argv, 0) == Err(inspect(files[|arguments|]).errno)
    ensures inspect(files[|arguments|]) == Ok(Some(last)) && check(last.interpreter).Some? ==>
      Expand(check, inspect, files[0], false, argv, 0) == Err(check(last.interpreter).value)
  {
    AlongTheChain(check, inspect, files, arguments, argv, |arguments|);
  }

  /** Every successful expansion is that of a chain of scripts. */
  lemma {:induction false} ExpansionIsAChain(check: Text -> Option<nat>, inspect: Text -> Result<Option<Shebang>>,
                                             program: Text, found: bool, argv: seq<Text>, i: nat)
    returns (files: seq<Text>, arguments: seq<Text>)
    requires i <= MAXSYMLINKS && Expand(check, inspect, program, found, argv, i).Ok?
    ensures Scripts(check, inspect, files, arguments) && files[0] == program
    ensures inspect(files[|arguments|]) == Ok(None) && i + |arguments| < MAXSYMLINKS
    decreases MAXSYMLINKS - i
  {
    var line := inspect(program).value;
    if line.None? {
      files, arguments := [program], [];
    } else {
      var s := line.value;
      var later, rest := ExpansionIsAChain(check, inspect, s.interpreter, true,
                                           Interpreted(argv, s.interpreter, s.argument, program), i + 1);
      files, arguments := [program] + later, [s.argument] + rest;
    }
  }

  /**
   A successful expansion of `program`: there is a chain of scripts from it to the executed program, and
   argv[] is made of their command lines as execve(2) says.
   */
  lemma ExpansionFollowsScripts(check: Text -> Option<nat>, inspect: Text -> Result<Option<Shebang>>, program: Text,
                                argv: seq<Text>)
    returns (files: seq<Text>, arguments: seq<Text>)
    requires Expand(check, inspect, program, false, argv, 0).Ok?
    ensures Scripts(check, inspect, files, arguments) && files[0] == program
    ensures inspect(files[|arguments|]) == Ok(None) && |arguments| < MAXSYMLINKS
    ensures var e := Expand(check, inspect, program, false, argv, 0).value;
      && e.program == files[|arguments|] && (e.found <==> arguments != [])
      && (arguments == [] ==> e.argv == argv)
      && (arguments != [] ==> e.argv == CommandLine(files, arguments) + Tail(argv))
  {
    files, arguments := ExpansionIsAChain(check, inspect, program, false, argv, 0);
    ScriptsAreExpanded(check, inspect, files, arguments, argv);
  }

  /** The loop of expand_shebang; argv[] is fetched beforehand, and pushed by its caller. */
  method ExpandShebang(check: Text -> Option<nat>, inspect: Text -> Result<Option<Shebang>>, userPath: Text,
                       argv: ArrayOfXPointers, ghost m: Memory, ghost strings: seq<Text>)
    returns (r: Result<(Text, bool)>)
    requires MeansAll(m, argv.xpointers, strings)
    modifies argv
    ensures r.Err? ==> Expand(check, inspect, userPath, false, strings, 0) == Err(r.errno)
    ensures r.Ok? ==> Expand(check, inspect, userPath, false, strings, 0).Ok?
    ensures r.Ok? ==>
      (var e := Expand(check, inspect, userPath, false, strings, 0).value;
       r.value == (e.program, e.found) && MeansAll(m, argv.xpointers, e.argv))
  {
    var path, hasShebang, i := userPath, false, 0;
    ghost var now := strings;
    while i < MAXSYMLINKS
      invariant 0 <= i <= MAXSYMLINKS && MeansAll(m, argv.xpointers, now)
      invariant Expand(check, inspect, path, hasShebang, now, i) == Expand(check, inspect, userPath, false, strings, 0)
    {
      if check(path).Some? {
        return Err(check(path).value);
      }
      var oldPath := path;
      var line := inspect(path);
      if line.Err? {
        return Err(line.errno);
      }
      if line.value.None? {
        return Ok((path, hasShebang));
      }
      hasShebang := true;
      path := line.value.value.interpreter;
      if check(path).Some? {
        return Err(check(path).value);
      }
      ghost var before := argv.xpointers;
      var argument := line.value.value.argument;
      argv.Prepend(path, argument, oldPath);
      PrependedMeans(m, before, now, path, argument, oldPath, argv.xpointers);
      now := Interpreted(now, path, argument, oldPath);
      i := i + 1;
    }
    return Err(ELOOP);
  }

  // ----- Words in memory -----

  /** The table of the pointers, as bytes. */
  function Table(words: seq<nat>): (b: seq<nat>)
    ensures |b| == WORD * |words|
  {
    if words == [] then [] else Bytes(words[0], WORD) + Table(words[1..])
  }

  lemma {:induction false} TableAt(words: seq<nat>, i: nat)
    requires i < |words|
    ensures Table(words)[WORD * i..WORD * i + WORD] == Bytes(words[i], WORD)
    decreases |words|
  {
    var head, tail := Bytes(words[0], WORD), Table(words[1..]);
    if i == 0 {
      assert (head + tail)[..WORD] == head;
    } else {
      TableAt(words[1..], i - 1);
      SliceBehind(head, tail, WORD * (i - 1), WORD * (i - 1) + WORD);
    }
  }

  lemma SliceBehind<T>(a: seq<T>, b: seq<T>, lo: nat, hi: nat)
    requires lo <= hi <= |b|
    ensures (a + b)[|a| + lo..|a| + hi] == b[lo..hi]
  {
  }

  // ----- The layout of a pushed array -----

  /** The bytes of the new strings among the first n entries. */
  function Strings(xs: seq<XPointer>): seq<nat> {
    if xs == [] then []
    else Strings(xs[..|xs| - 1]) + (if xs[|xs| - 1].local.Some? then xs[|xs| - 1].local.value + [0] else [])
  }

  /** Where the string of entry i goes, relative to the block. */
  function Offset(xs: seq<XPointer>, i: nat): nat
    requires i <= |xs|
  {
    WORD * |xs| + |Strings(xs[..i])|
  }

  /** The pointers that are written. */
  function Pointers(xs: seq<XPointer>, at: nat): (w: seq<nat>)
    ensures |w| == |xs|
  {
    seq(|xs|, i requires 0 <= i < |xs| => if xs[i].local.Some? then at + Offset(xs, i) else xs[i].remote)
  }

  /** The size of the block. */
  function SizeOf(xs: seq<XPointer>): nat {
    WORD * |xs| + |Strings(xs)|
  }

  function Block(xs: seq<XPointer>, at: nat): (b: seq<nat>)
    ensures |b| == SizeOf(xs)
  {
    Table(Pointers(xs, at)) + Strings(xs)
  }

  lemma StringsStep(xs: seq<XPointer>, i: nat)
    requires i < |xs|
    ensures Strings(xs[..i + 1]) == Strings(xs[..i]) + (if xs[i].local.Some? then xs[i].local.value + [0] else [])
  {
    assert xs[..i + 1][..i] == xs[..i];
  }

  /** The strings of the first entries come first. */
  lemma {:induction false} StringsFront(xs: seq<XPointer>, i: nat)
    requires i <= |xs|
    ensures |Strings(xs[..i])| <= |Strings(xs)| && Strings(xs)[..|Strings(xs[..i])|] == Strings(xs[..i])
    decreases |xs|
  {
    if i == |xs| {
      assert xs[..i] == xs;
    } else {
      var front := xs[..|xs| - 1];
      StringsFront(front, i);
      assert front[..i] == xs[..i];
    }
  }

  /** Every new string has its own bytes of the block, with its terminator. */
  lemma StringInBlock(xs: seq<XPointer>, at: nat, i: nat)
    requires i < |xs| && xs[i].local.Some?
    ensures Offset(xs, i) + |xs[i].local.value| + 1 <= |Block(xs, at)|
    ensures Block(xs, at)[Offset(xs, i)..Offset(xs, i) + |xs[i].local.value| + 1] == xs[i].local.value + [0]
  {
    StringsStep(xs, i);
    StringsFront(xs, i);
    StringsFront(xs, i + 1);
    var a, b := |Strings(xs[..i])|, |Strings(xs[..i + 1])|;
    assert Strings(xs)[a..b] == Strings(xs[..i + 1])[a..];
    SliceBehind(Table(Pointers(xs, at)), Strings(xs), a, b);
  }

  /** The bytes of different new strings do not overlap. */
  lemma StringsApart(xs: seq<XPointer>, i: nat, j: nat)
    requires i < j < |xs| && xs[i].local.Some?
    ensures Offset(xs, i) + |xs[i].local.value| + 1 <= Offset(xs, j)
  {
    StringsStep(xs, i);
    StringsFront(xs[..j], i + 1);
    assert xs[..j][..i + 1] == xs[..i + 1];
  }

  // ----- fetch_array_of_xpointers -----

  ghost function WordAt(m: Memory, a: nat): nat
    requires AllIn(m, a, WORD)
  {
    Value(BytesAt(m, a, WORD))
  }

  /** A NULL-terminated table of pointers. */
  ghost predicate TableIn(m: Memory, address: nat, xs: seq<XPointer>) {
    && xs != [] && AllIn(m, address, WORD * |xs|)
    && forall i {:trigger xs[i]} :: 0 <= i < |xs| ==>
         xs[i] == XPointer(WordAt(m, address + WORD * i), None) && (xs[i].remote == 0 <==> i == |xs| - 1)
  }

  /** A table has one end. */
  lemma TableIsUnique(m: Memory, address: nat, xs: seq<XPointer>, ys: seq<XPointer>)
    requires TableIn(m, address, xs) && TableIn(m, address, ys)
    ensures xs == ys
  {
    assert |xs| <= |ys| ==> xs[|xs| - 1] == ys[|xs| - 1];
    assert |ys| <= |xs| ==> xs[|ys| - 1] == ys[|ys| - 1];
    assert forall i :: 0 <= i < |xs| ==> xs[i] == ys[i];
  }

  /** All entries up to the NULL pointer, or nothing when the table leaves the accessible memory. */
  method Fetch(tracee: Tracee, address: nat) returns (r: Option<seq<XPointer>>)
    ensures r.Some? ==> TableIn(tracee.memory, address, r.value)
    ensures forall xs :: TableIn(tracee.memory, address, xs) ==> r == Some(xs)
  {
    ghost var m := tracee.memory;
    var xs: seq<XPointer> := [];
    var pointer := 1;
    ghost var ahead := set a | a in m && a >= address;
    while pointer != 0
      invariant AllIn(m, address, WORD * |xs|) && tracee.memory == m
      invariant forall i {:trigger xs[i]} :: 0 <= i < |xs| ==> xs[i] == XPointer(WordAt(m, address + WORD * i), None)
      invariant forall i {:trigger xs[i]} :: 0 <= i < |xs| - 1 ==> xs[i].remote != 0
      invariant xs == [] ==> pointer == 1
      invariant xs != [] ==> pointer == xs[|xs| - 1].remote
      invariant ahead == set a | a in m && a >= address + WORD * |xs|
      decreases |ahead|
    {
      var at := address + WORD * |xs|;
      var word := tracee.PeekData(at);
      if word.None? {
        forall ys | TableIn(m, address, ys)
          ensures false
        {
          LongerTable(m, address, xs, ys);
        }
        return None;
      }
      pointer := Value(word.value);
      assert at in ahead;
      ghost var next := set a | a in m && a >= at + WORD;
      assert next <= ahead - {at};
      Smaller(next, ahead, at);
      xs := xs + [XPointer(pointer, None)];
      ahead := next;
    }
    forall ys | TableIn(m, address, ys)
      ensures ys == xs
    {
      TableIsUnique(m, address, xs, ys);
    }
    return Some(xs);
  }

  /** A table goes on while there is no NULL pointer. */
  lemma LongerTable(m: Memory, address: nat, xs: seq<XPointer>, ys: seq<XPointer>)
    requires TableIn(m, address, ys) && AllIn(m, address, WORD * |xs|)
    requires forall i {:trigger xs[i]} :: 0 <= i < |xs| ==>
               xs[i] == XPointer(WordAt(m, address + WORD * i), None) && xs[i].remote != 0
    ensures AllIn(m, address + WORD * |xs|, WORD)
  {
    assert |ys| <= |xs| ==> ys[|ys| - 1] == xs[|ys| - 1];
  }

  // ----- push_array_of_xpointers -----

  /** Bytes below the stack pointer that only the compiler may use. */
  const RED_ZONE: nat := 128

  /** alloc_mem: a block below the stack pointer, or 0. */
  function AllocMem(stackPointer: nat, original: nat, size: nat): (at: nat)
    ensures at != 0 ==> at + size <= stackPointer
    ensures at != 0 && stackPointer == original ==> at + size + RED_ZONE <= stackPointer
    ensures at != 0 && stackPointer != original ==> at + size == stackPointer
    ensures at == 0 <==> stackPointer <= size + (if stackPointer == original then RED_ZONE else 0)
  {
    var wanted := if stackPointer == original then size + RED_ZONE else size;
    if stackPointer <= wanted then 0 else stackPointer - wanted
  }

  datatype Pushed = NothingToDo | At(address: nat) | Failed(errno: nat)

  /** The entries once it is known where their strings are. */
  function Placed(xs: seq<XPointer>, at: nat): (ys: seq<XPointer>)
    ensures |ys| == |xs|
  {
    seq(|xs|, i requires 0 <= i < |xs| => xs[i].(remote := Pointers(xs, at)[i]))
  }

  /** One buffer for the table, and one for each new string. */
  function Vector(xs: seq<XPointer>): seq<seq<nat>> {
    if xs == [] then []
    else Vector(xs[..|xs| - 1]) + (if xs[|xs| - 1].local.Some? then [xs[|xs| - 1].local.value + [0]] else [])
  }

  lemma {:induction false} VectorGathers(xs: seq<XPointer>, table: seq<nat>)
    ensures Gathered([table] + Vector(xs)) == table + Strings(xs)
    decreases |xs|
  {
    var v := [table] + Vector(xs);
    if xs == [] {
      assert v == [table] && [table][..0] == [] && Gathered([]) == [];
      assert [] + table == table && table + [] == table;
    } else {
      var front, x := xs[..|xs| - 1], xs[|xs| - 1];
      VectorGathers(front, table);
      if x.local.Some? {
        assert v[..|v| - 1] == [table] + Vector(front) && v[|v| - 1] == x.local.value + [0];
      } else {
        assert Vector(xs) == Vector(front) && Strings(xs) == Strings(front);
      }
    }
  }

  lemma {:induction false} VectorIsEmpty(xs: seq<XPointer>)
    ensures Vector(xs) == [] <==> forall i :: 0 <= i < |xs| ==> xs[i].local.None?
    decreases |xs|
  {
    if xs != [] {
      VectorIsEmpty(xs[..|xs| - 1]);
      assert forall i :: 0 <= i < |xs| - 1 ==> xs[i] == xs[..|xs| - 1][i];
    }
  }

  lemma VectorStep(xs: seq<XPointer>, i: nat)
    requires i < |xs|
    ensures Vector(xs[..i + 1]) == Vector(xs[..i]) + (if xs[i].local.Some? then [xs[i].local.value + [0]] else [])
  {
    assert xs[..i + 1][..i] == xs[..i];
  }

  /** The first loop: the offsets of the new strings, their buffers, and the size of the block. */
  method LayOut(xs: seq<XPointer>) returns (offsets: seq<nat>, vector: seq<seq<nat>>, total: nat)
    ensures |offsets| == |xs| && forall i :: 0 <= i < |xs| && xs[i].local.Some? ==> offsets[i] == Offset(xs, i)
    ensures vector == Vector(xs) && total == WORD * |xs| + |Strings(xs)|
  {
    offsets := seq(|xs|, _ => 0);
    vector := [];
    total := WORD * |xs|;
    var i := 0;
    while i < |xs|
      invariant 0 <= i <= |xs| && |offsets| == |xs| && vector == Vector(xs[..i])
      invariant total == WORD * |xs| + |Strings(xs[..i])|
      invariant forall k :: 0 <= k < i && xs[k].local.Some? ==> offsets[k] == Offset(xs, k)
    {
      StringsStep(xs, i);
      VectorStep(xs, i);
      if xs[i].local.Some? {
        offsets := offsets[i := total];
        total := total + |xs[i].local.value| + 1;
        vector := vector + [xs[i].local.value + [0]];
      }
      i := i + 1;
    }
    assert xs[..i] == xs;
  }

  /** The second loop: the addresses, and the table of pointers. */
  method Place(xs: seq<XPointer>, offsets: seq<nat>, at: nat) returns (ys: seq<XPointer>, table: seq<nat>)
    requires |offsets| == |xs| && forall i :: 0 <= i < |xs| && xs[i].local.Some? ==> offsets[i] == Offset(xs, i)
    ensures ys == Placed(xs, at) && table == Pointers(xs, at)
  {
    ys := xs;
    table := [];
    var i := 0;
    while i < |xs|
      invariant 0 <= i <= |xs| && |ys| == |xs| && |table| == i
      invariant forall k :: 0 <= k < i ==> ys[k] == Placed(xs, at)[k] && table[k] == Pointers(xs, at)[k]
      invariant forall k :: i <= k < |xs| ==> ys[k] == xs[k]
    {
      if xs[i].local.Some? {
        ys := ys[i := ys[i].(remote := at + offsets[i])];
      }
      table := table + [ys[i].remote];
      i := i + 1;
    }
  }

  /** push_array_of_xpointers; the new value of the register is the address that is returned. */
  method Push(argv: ArrayOfXPointers, tracee: Tracee, stackPointer: nat, original: nat) returns (r: Pushed)
    modifies argv, tracee
    ensures r == NothingToDo <==> forall i :: 0 <= i < |old(argv.xpointers)| ==> old(argv.xpointers)[i].local.None?
    ensures r == NothingToDo ==> argv.xpointers == old(argv.xpointers) && tracee.memory == old(tracee.memory)
    ensures r.At? ==>
      && r.address != 0 && r.address + |Block(old(argv.xpointers), r.address)| <= stackPointer
      && r.address == AllocMem(stackPointer, original, SizeOf(old(argv.xpointers)))
      && AllIn(old(tracee.memory), r.address, |Block(old(argv.xpointers), r.address)|)
      && tracee.memory == Overwritten(old(tracee.memory), r.address, Block(old(argv.xpointers), r.address))
      && argv.xpointers == Placed(old(argv.xpointers), r.address)
    ensures r.Failed? ==>
      var at := AllocMem(stackPointer, original, SizeOf(old(argv.xpointers)));
      if at == 0 then r.errno == E2BIG
      else r.errno == EFAULT && !AllIn(old(tracee.memory), at, SizeOf(old(argv.xpointers)) + WORD)
    ensures tracee.memory.Keys == old(tracee.memory).Keys
  {
    var xs := argv.xpointers;
    var offsets, vector, total := LayOut(xs);
    VectorIsEmpty(xs);
    if |vector| == 0 {
      return NothingToDo;
    }
    var at := AllocMem(stackPointer, original, total);
    if at == 0 {
      return Failed(E2BIG);
    }
    var ys, words := Place(xs, offsets, at);
    argv.xpointers := ys;
    VectorGathers(xs, Table(words));
    var ok := tracee.WritevData(at, [Table(words)] + vector);
    if !ok {
      return Failed(EFAULT);
    }
    return At(at);
  }

  const E2BIG: nat := 7
  const EFAULT: nat := 14

  // ----- Fetching what was pushed -----

  /** What fetching gives: the pointers only. */
  function Fetched(xs: seq<XPointer>, at: nat): (ys: seq<XPointer>)
    ensures |ys| == |xs|
  {
    seq(|xs|, i requires 0 <= i < |xs| => XPointer(Pointers(xs, at)[i], None))
  }

  lemma BytesOfBlock(m: Memory, at: nat, block: seq<nat>, lo: nat, hi: nat)
    requires AllIn(m, at, |block|) && lo <= hi <= |block|
    ensures AllIn(Overwritten(m, at, block), at + lo, hi - lo)
    ensures BytesAt(Overwritten(m, at, block), at + lo, hi - lo) == block[lo..hi]
  {
  }

  lemma BytesElsewhere(m: Memory, at: nat, block: seq<nat>, a: nat, n: nat)
    requires AllIn(m, a, n) && (a + n <= at || at + |block| <= a)
    ensures AllIn(Overwritten(m, at, block), a, n) && BytesAt(Overwritten(m, at, block), a, n) == BytesAt(m, a, n)
  {
  }

  lemma ByteAt(m: Memory, a: nat, n: nat, i: nat)
    requires AllIn(m, a, n) && i < n
    ensures BytesAt(m, a, n)[i] == m[a + i]
  {
  }

  lemma TextOfBytes(m: Memory, a: nat, t: Text)
    requires IsText(t) && AllIn(m, a, |t| + 1) && BytesAt(m, a, |t| + 1) == t + [0]
    ensures TextAt(m, a, t)
  {
    ByteAt(m, a, |t| + 1, |t|);
    forall i | 0 <= i < |t|
      ensures m[a + i] == t[i]
    {
      ByteAt(m, a, |t| + 1, i);
    }
    forall b: nat | a <= b < a + |t| && b in m
      ensures m[b] != 0
    {
      var i := b - a;
      assert m[a + i] == t[i];
    }
    assert BytesAt(m, a, |t|) == t;
  }

  lemma TextKept(m: Memory, n: Memory, a: nat, t: Text)
    requires TextAt(m, a, t) && AllIn(n, a, |t| + 1) && BytesAt(n, a, |t| + 1) == BytesAt(m, a, |t| + 1)
    ensures TextAt(n, a, t)
  {
    SameByte(m, n, a, |t| + 1, |t|);
    forall b: nat | a <= b < a + |t| && b in n
      ensures n[b] != 0
    {
      SameByte(m, n, a, |t| + 1, b - a);
    }
    forall i | 0 <= i < |t|
      ensures BytesAt(n, a, |t|)[i] == BytesAt(m, a, |t|)[i]
    {
      SameByte(m, n, a, |t| + 1, i);
    }
  }

  lemma SameByte(m: Memory, n: Memory, a: nat, length: nat, i: nat)
    requires AllIn(m, a, length) && AllIn(n, a, length) && BytesAt(n, a, length) == BytesAt(m, a, length) && i < length
    ensures n[a + i] == m[a + i]
  {
    ByteAt(m, a, length, i);
    ByteAt(n, a, length, i);
  }

  /** The block does not cover a string that stays where it is. */
  predicate Apart(x: XPointer, t: Text, at: nat, size: nat) {
    x.local.None? ==> x.remote + |t| + 1 <= at || at + size <= x.remote
  }

  ghost predicate CanPush(m: Memory, xs: seq<XPointer>, argv: seq<Text>, at: nat) {
    && MeansAll(m, xs, argv) && at > 0 && AllIn(m, at, |Block(xs, at)|)
    && (forall i {:trigger IsText(argv[i])} :: 0 <= i < |argv| ==> IsText(argv[i]))
    && (forall i {:trigger Pointers(xs, at)[i]} :: 0 <= i < |xs| ==> Pointers(xs, at)[i] < Power(WORD))
    && (forall i {:trigger xs[i]} :: 0 <= i < |argv| ==> Apart(xs[i], argv[i], at, |Block(xs, at)|))
  }

  /** A word that the block holds is read at its place. */
  lemma WordIsRead(m: Memory, at: nat, block: seq<nat>, lo: nat, w: nat, b: seq<nat>)
    requires AllIn(m, at, |block|) && lo + WORD <= |block| && block[lo..lo + WORD] == b
    requires Value(b) == w
    ensures AllIn(Overwritten(m, at, block), at + lo, WORD) && WordAt(Overwritten(m, at, block), at + lo) == w
  {
    BytesOfBlock(m, at, block, lo, lo + WORD);
  }

  lemma PointerIsFetched(m: Memory, xs: seq<XPointer>, argv: seq<Text>, at: nat, i: nat)
    requires CanPush(m, xs, argv, at) && i < |xs|
    ensures var n := Overwritten(m, at, Block(xs, at));
      AllIn(n, at + WORD * i, WORD) && WordAt(n, at + WORD * i) == Pointers(xs, at)[i]
  {
    hide Block, Table, Strings, MeansAll, Bytes;
    var w := Pointers(xs, at)[i];
    PointerInBlock(xs, at, i);
    ValueOfBytes(w, WORD);
    WordIsRead(m, at, Block(xs, at), WORD * i, w, Bytes(w, WORD));
  }

  lemma PointerInBlock(xs: seq<XPointer>, at: nat, i: nat)
    requires i < |xs|
    ensures WORD * i + WORD <= |Block(xs, at)|
    ensures Block(xs, at)[WORD * i..WORD * i + WORD] == Bytes(Pointers(xs, at)[i], WORD)
  {
    var words := Pointers(xs, at);
    TableAt(words, i);
    SliceBefore(Table(words), Strings(xs), WORD * i, WORD * i + WORD);
  }

  lemma SliceBefore<T>(a: seq<T>, b: seq<T>, lo: nat, hi: nat)
    requires lo <= hi <= |a|
    ensures (a + b)[lo..hi] == a[lo..hi]
  {
  }

  lemma TextIsFetched(m: Memory, xs: seq<XPointer>, argv: seq<Text>, at: nat, i: nat)
    requires CanPush(m, xs, argv, at) && i < |argv|
    ensures Means(Overwritten(m, at, Block(xs, at)), Fetched(xs, at)[i], argv[i])
  {
    var n := Overwritten(m, at, Block(xs, at));
    var t := argv[i];
    assert Means(m, xs[i], t) && IsText(t);
    if xs[i].local.Some? {
      StringInBlock(xs, at, i);
      var lo := Offset(xs, i);
      BytesOfBlock(m, at, Block(xs, at), lo, lo + |t| + 1);
      TextOfBytes(n, at + lo, t);
    } else {
      BytesElsewhere(m, at, Block(xs, at), xs[i].remote, |t| + 1);
      TextKept(m, n, xs[i].remote, t);
    }
  }

  /**
   After an array was pushed, fetching the address that was put in the register gives an array of the
   same strings, those that were new and those that stayed where they were.
   */
  lemma PushedIsFetched(m: Memory, xs: seq<XPointer>, argv: seq<Text>, at: nat)
    requires CanPush(m, xs, argv, at)
    ensures TableIn(Overwritten(m, at, Block(xs, at)), at, Fetched(xs, at))
    ensures MeansAll(Overwritten(m, at, Block(xs, at)), Fetched(xs, at), argv)
  {
    var n := Overwritten(m, at, Block(xs, at));
    var ys := Fetched(xs, at);
    assert AllIn(n, at, WORD * |ys|);
    forall i | 0 <= i < |ys|
      ensures ys[i] == XPointer(WordAt(n, at + WORD * i), None) && (ys[i].remote == 0 <==> i == |ys| - 1)
    {
      PointerIsFetched(m, xs, argv, at, i);
      if i < |argv| {
        assert Means(m, xs[i], argv[i]);
      }
    }
    forall i | 0 <= i < |argv|
      ensures Means(n, ys[i], argv[i])
    {
      TextIsFetched(m, xs, argv, at, i);
    }
  }

  /** The conditions of a caller, before the push: no string that stays lies where the block will be. */
  ghost predicate CanStay(m: Memory, xs: seq<XPointer>, argv: seq<Text>, stackPointer: nat, original: nat) {
    && MeansAll(m, xs, argv) && stackPointer <= Power(WORD)
    && (forall i {:trigger IsText(argv[i])} :: 0 <= i < |argv| ==> IsText(argv[i]))
    && (forall i {:trigger xs[i]} :: 0 <= i < |xs| ==> xs[i].remote < Power(WORD))
    && (forall i {:trigger xs[i]} :: 0 <= i < |argv| ==>
          Apart(xs[i], argv[i], AllocMem(stackPointer, original, SizeOf(xs)), SizeOf(xs)))
  }

  lemma PushedFits(m: Memory, xs: seq<XPointer>, argv: seq<Text>, stackPointer: nat, original: nat, at: nat)
    requires CanStay(m, xs, argv, stackPointer, original) && at != 0
    requires at == AllocMem(stackPointer, original, SizeOf(xs)) && AllIn(m, at, SizeOf(xs))
    ensures CanPush(m, xs, argv, at)
  {
    forall i | 0 <= i < |xs|
      ensures Pointers(xs, at)[i] < Power(WORD)
    {
      if xs[i].local.Some? {
        StringInBlock(xs, at, i);
      }
    }
  }

  /** What is pushed for a tracee is what is fetched from it afterwards. */
  method PushThenFetch(argv: ArrayOfXPointers, tracee: Tracee, stackPointer: nat, original: nat, ghost strings: seq<Text>)
    returns (r: Pushed, fetched: Option<seq<XPointer>>)
    requires CanStay(tracee.memory, argv.xpointers, strings, stackPointer, original)
    modifies argv, tracee
    ensures r.At? ==> fetched.Some? && MeansAll(tracee.memory, fetched.value, strings)
  {
    ghost var m, xs := tracee.memory, argv.xpointers;
    r := Push(argv, tracee, stackPointer, original);
    fetched := None;
    if r.At? {
      PushedFits(m, xs, strings, stackPointer, original, r.address);
      PushedIsFetched(m, xs, strings, r.address);
      fetched := Fetch(tracee, r.address);
    }
  }
}
