/**
 From segments to memory: the mappings of execve/enter.c:56-124, as the load script of
 execve/exit.c:174-363 that the loader (loader/loader.c:111-255) interprets, give the program and its
 interpreter their images.
 */
module LoadImage {
  import opened Wrappers
  import opened ElfLoad
  import opened LoadScript
  import opened ScriptBuffer

  /** The address space of the tracee, and the file behind the descriptor of the loader. */
  datatype World = World(memory: Memory, open: Option<seq<nat>>)

  /** One system call of the loader; `files` are the contents found by the addresses of path strings. */
  function Play(e: Event, w: World, files: nat -> seq<nat>, page: nat): Option<World>
    requires page > 0
  {
    match e
    case CloseFd => Some(w.(open := None))
    case OpenFile(path) => Some(w.(open := Some(files(path))))
    case MapFileAt(addr, length, prot, offset, clear) =>
      if w.open.None? then None
      else
        (match LoadOne(w.memory, Mapping(false, addr, length, offset, clear, prot), w.open.value, page)
         case None => None
         case Some(r) => Some(w.(memory := r)))
    case MapAnonAt(addr, length, prot) => Some(w.(memory := MapAnonymous(w.memory, addr, length, prot)))
    case ProtectStack(_) => Some(w)
    case Branch(_, _, _) => Some(w)
  }

  function PlayAll(es: seq<Event>, w: World, files: nat -> seq<nat>, page: nat): Option<World>
    requires page > 0
    decreases |es|
  {
    if es == [] then Some(w)
    else
      match Play(es[0], w, files, page)
      case None => None
      case Some(v) => PlayAll(es[1..], v, files, page)
  }

  lemma {:induction false} PlayAppend(a: seq<Event>, b: seq<Event>, w: World, files: nat -> seq<nat>, page: nat)
    requires page > 0
    ensures PlayAll(a + b, w, files, page) ==
      match PlayAll(a, w, files, page)
      case None => None
      case Some(v) => PlayAll(b, v, files, page)
    decreases |a|
  {
    if a == [] {
      assert a + b == b;
    } else {
      assert (a + b)[1..] == a[1..] + b;
      var next := Play(a[0], w, files, page);
      if next.Some? {
        PlayAppend(a[1..], b, next.value, files, page);
      }
    }
  }

  lemma PlayOne(e: Event, w: World, files: nat -> seq<nat>, page: nat)
    requires page > 0
    ensures PlayAll([e], w, files, page) == Play(e, w, files, page)
  {
    assert [e][1..] == [];
  }

  /** With a file open, the mappings of an object do what its mappings are to do. */
  lemma {:induction false} PlayMappings(mappings: seq<Mapping>, w: World, files: nat -> seq<nat>, page: nat)
    requires page > 0 && w.open.Some?
    ensures PlayAll(MapEvents(mappings), w, files, page) ==
      match LoadAll(w.memory, mappings, w.open.value, page)
      case None => None
      case Some(r) => Some(w.(memory := r))
    decreases |mappings|
  {
    if mappings != [] {
      var front, last := mappings[..|mappings| - 1], mappings[|mappings| - 1];
      PlayMappings(front, w, files, page);
      PlayAppend(MapEvents(front), [MapEvent(last)], w, files, page);
      LoadAllAppend(w.memory, front, [last], w.open.value, page);
      assert mappings == front + [last];
      var r := LoadAll(w.memory, front, w.open.value, page);
      if r.Some? {
        PlayOne(MapEvent(last), w.(memory := r.value), files, page);
        LoadLast(r.value, last, w.open.value, page);
      }
    }
  }

  lemma LoadLast(m: Memory, x: Mapping, file: seq<nat>, page: nat)
    requires page > 0
    ensures LoadAll(m, [x], file, page) == LoadOne(m, x, file, page)
  {
    assert [x][1..] == [];
  }

  /** Loading segments leaves alone what lies below all of them. */
  lemma {:induction false} SegmentsKeep(m: Memory, segments: seq<Segment>, file: seq<nat>, page: nat, limit: nat)
    requires page > 0 && forall i :: 0 <= i < |segments| ==>
               Loadable(segments[i], file, page) && limit <= PageFloor(segments[i].vaddr, page)
    ensures LoadAll(m, MappingsOfAll(segments, page), file, page).Some? ==>
              SameBelow(m, LoadAll(m, MappingsOfAll(segments, page), file, page).value, limit)
    decreases |segments|
  {
    if segments != [] {
      var front, last := segments[..|segments| - 1], segments[|segments| - 1];
      SegmentsKeep(m, front, file, page, limit);
      LoadAllAppend(m, MappingsOfAll(front, page), MappingsOf(last, page), file, page);
      var u := LoadAll(m, MappingsOfAll(front, page), file, page);
      if u.Some? {
        SegmentLoads(u.value, last, file, page);
      }
    }
  }

  /** An object whose mappings are those of segments that its file allows. */
  ghost predicate IsLoaded(x: Object, segments: seq<Segment>, file: seq<nat>, page: nat)
    requires page > 0
  {
    && x.mappings == MappingsOfAll(segments, page) && Ascending(segments, page)
    && forall i :: 0 <= i < |segments| ==> Loadable(segments[i], file, page)
  }

  ghost predicate Images(m: Memory, segments: seq<Segment>, file: seq<nat>) {
    forall i :: 0 <= i < |segments| ==> Image(m, segments[i], file)
  }

  ghost predicate SomeFaults(segments: seq<Segment>, file: seq<nat>, page: nat)
    requires page > 0
  {
    exists i :: 0 <= i < |segments| && ClearFaults(segments[i], file, page)
  }

  /** Opening a file and mapping its segments. */
  lemma ObjectIsLoaded(x: Object, segments: seq<Segment>, path: nat, w: World, files: nat -> seq<nat>, page: nat)
    requires page > 0 && IsLoaded(x, segments, files(path), page)
    ensures var r := PlayAll([OpenFile(path)] + MapEvents(x.mappings), w, files, page);
      && (r.None? <==> SomeFaults(segments, files(path), page))
      && (r.Some? ==> Images(r.value.memory, segments, files(path)))
      && (r.Some? ==> LoadAll(w.memory, x.mappings, files(path), page) == Some(r.value.memory))
  {
    var v := w.(open := Some(files(path)));
    PlayAppend([OpenFile(path)], MapEvents(x.mappings), w, files, page);
    PlayOne(OpenFile(path), w, files, page);
    PlayMappings(x.mappings, v, files, page);
    SegmentsLoad(w.memory, segments, files(path), page);
  }

  lemma ImagesKept(m: Memory, r: Memory, segments: seq<Segment>, file: seq<nat>, limit: nat)
    requires Images(m, segments, file) && SameBelow(m, r, limit)
    requires forall i :: 0 <= i < |segments| ==> segments[i].vaddr + segments[i].memsz <= limit
    ensures Images(r, segments, file)
  {
    forall i | 0 <= i < |segments|
      ensures Image(r, segments[i], file)
    {
      ImageKept(m, r, segments[i], file, limit);
    }
  }

  /** The end of the events: the stack, the descriptor, the branch. */
  lemma TailKeepsMemory(tail: seq<Event>, w: World, files: nat -> seq<nat>, page: nat)
    requires page > 0
    requires forall i :: 0 <= i < |tail| ==> tail[i].ProtectStack? || tail[i].CloseFd? || tail[i].Branch?
    ensures PlayAll(tail, w, files, page).Some? && PlayAll(tail, w, files, page).value.memory == w.memory
    decreases |tail|
  {
    if tail != [] {
      TailKeepsMemory(tail[1..], Play(tail[0], w, files, page).value, files, page);
    }
  }

  /** The program and its interpreter are there, the interpreter above the program. */
  ghost predicate CanLoad(q: Request, ps: seq<Segment>, rs: seq<Segment>, files: nat -> seq<nat>, page: nat, limit: nat)
    requires Fits(q) && page > 0
  {
    StringsBelowStack(q);
    && IsLoaded(q.program, ps, files(String1(q)), page)
    && (if q.interp.Some? then IsLoaded(q.interp.value, rs, files(String2(q)), page) else rs == [])
    && (forall i :: 0 <= i < |ps| ==> ps[i].vaddr + ps[i].memsz <= limit)
    && (forall i :: 0 <= i < |rs| ==> limit <= PageFloor(rs[i].vaddr, page))
  }

  /** What the loader does with a request. */
  function EventsOf(q: Request): seq<Event>
    requires Fits(q) && q.program.mappings != []
  {
    LoadEvents(q) + [CloseFd, Branch(q.traced, AtBase(q), StartOf(q).info)]
  }

  lemma ProgramAndInterpreter(q: Request, ps: seq<Segment>, rs: seq<Segment>, files: nat -> seq<nat>, m: Memory,
                              page: nat, limit: nat)
    requires Fits(q) && page > 0 && q.interp.Some? && CanLoad(q, ps, rs, files, page, limit)
    requires String1(q) >= 0 && String2(q) >= 0
    ensures var program := [OpenFile(String1(q))] + MapEvents(q.program.mappings);
      var interp := [CloseFd, OpenFile(String2(q))] + MapEvents(q.interp.value.mappings);
      var r := PlayAll(program + interp, World(m, None), files, page);
      && (r.None? <==> SomeFaults(ps, files(String1(q)), page) || SomeFaults(rs, files(String2(q)), page))
      && (r.Some? ==> Images(r.value.memory, ps, files(String1(q))) && Images(r.value.memory, rs, files(String2(q))))
  {
    var program := [OpenFile(String1(q))] + MapEvents(q.program.mappings);
    var open := [OpenFile(String2(q))] + MapEvents(q.interp.value.mappings);
    var interp := [CloseFd, OpenFile(String2(q))] + MapEvents(q.interp.value.mappings);
    assert interp == [CloseFd] + open;
    var w := World(m, None);
    PlayAppend(program, interp, w, files, page);
    ObjectIsLoaded(q.program, ps, String1(q), w, files, page);
    var u := PlayAll(program, w, files, page);
    if u.Some? {
      var v := u.value.(open := None);
      PlayAppend([CloseFd], open, u.value, files, page);
      PlayOne(CloseFd, u.value, files, page);
      ObjectIsLoaded(q.interp.value, rs, String2(q), v, files, page);
      SegmentsKeep(v.memory, rs, files(String2(q)), page, limit);
      var r := PlayAll(open, v, files, page);
      if r.Some? {
        ImagesKept(v.memory, r.value.memory, ps, files(String1(q)), limit);
      }
    }
  }

  /**
   What the loader does with a request leaves, whatever was mapped before, the gABI image of every
   segment of the program and of its interpreter; it faults exactly when a segment's clearing does.
   */
  lemma RequestIsLoaded(q: Request, ps: seq<Segment>, rs: seq<Segment>, files: nat -> seq<nat>, m: Memory, page: nat,
                        limit: nat)
    requires Fits(q) && q.program.mappings != [] && page > 0 && CanLoad(q, ps, rs, files, page, limit)
    requires String1(q) >= 0 && (q.interp.Some? ==> String2(q) >= 0)
    ensures var r := PlayAll(EventsOf(q), World(m, None), files, page);
      && (r.None? <==> SomeFaults(ps, files(String1(q)), page)
                       || (q.interp.Some? && SomeFaults(rs, files(String2(q)), page)))
      && (r.Some? ==> Images(r.value.memory, ps, files(String1(q))))
      && (r.Some? && q.interp.Some? ==> Images(r.value.memory, rs, files(String2(q))))
  {
    var w := World(m, None);
    var program := [OpenFile(String1(q))] + MapEvents(q.program.mappings);
    var interp := if q.interp.Some? then [CloseFd, OpenFile(String2(q))] + MapEvents(q.interp.value.mappings) else [];
    var stack := if q.executableStack then [ProtectStack(StackPage(q))] else [];
    var tail := stack + [CloseFd, Branch(q.traced, AtBase(q), StartOf(q).info)];
    assert EventsOf(q) == (program + interp) + tail;
    PlayAppend(program + interp, tail, w, files, page);
    if q.interp.Some? {
      ProgramAndInterpreter(q, ps, rs, files, m, page, limit);
    } else {
      assert program + interp == program;
      ObjectIsLoaded(q.program, ps, String1(q), w, files, page);
    }
    var u := PlayAll(program + interp, w, files, page);
    if u.Some? {
      TailKeepsMemory(tail, u.value, files, page);
    }
  }

  /** The first mapping of an object starts where its first segment does. */
  lemma {:induction false} FirstMapping(segments: seq<Segment>, page: nat)
    requires page > 0 && segments != []
    ensures MappingsOfAll(segments, page) != []
    ensures MappingsOfAll(segments, page)[0].addr == PageFloor(segments[0].vaddr, page)
    decreases |segments|
  {
    if |segments| > 1 {
      FirstMapping(segments[..|segments| - 1], page);
    }
  }

  /** The memory from `at` on shows `size` bytes of the file. */
  ghost predicate ShowsFile(m: Memory, at: nat, file: seq<nat>, from: nat, size: nat)
    requires from + size <= |file|
  {
    forall a: nat :: at <= a < at + size ==> a in m && m[a].value == file[from + (a - at)]
  }

  /**
   When the first segment holds the program headers and is mapped from the start of the file, AT_PHDR, with
   which the loader branches, is where the file is found from its phoff on.
   */
  lemma HeadersAreThere(q: Request, ps: seq<Segment>, rs: seq<Segment>, files: nat -> seq<nat>, m: Memory, page: nat,
                        limit: nat, size: nat)
    requires Fits(q) && q.program.mappings != [] && page > 0 && CanLoad(q, ps, rs, files, page, limit)
    requires String1(q) >= 0 && (q.interp.Some? ==> String2(q) >= 0)
    requires ps != [] && PageFloor(ps[0].offset, page) == 0 && ps[0].offset <= q.phoff
    requires q.phoff + size <= ps[0].offset + ps[0].filesz && PlayAll(EventsOf(q), World(m, None), files, page).Some?
    ensures var file, memory := files(String1(q)), PlayAll(EventsOf(q), World(m, None), files, page).value.memory;
      && EventsOf(q) != [] && EventsOf(q)[|EventsOf(q)| - 1].Branch?
      && q.phoff + size <= |file|
      && ShowsFile(memory, EventsOf(q)[|EventsOf(q)| - 1].info.atPhdr, file, q.phoff, size)
  {
    RequestIsLoaded(q, ps, rs, files, m, page, limit);
    var file, memory := files(String1(q)), PlayAll(EventsOf(q), World(m, None), files, page).value.memory;
    var s := ps[0];
    assert Image(memory, s, file) && Loadable(s, file, page);
    FirstMapping(ps, page);
    FloorShift(s.vaddr, s.offset, 0, page);
    var atPhdr := EventsOf(q)[|EventsOf(q)| - 1].info.atPhdr;
    assert atPhdr == q.program.mappings[0].addr + q.phoff;
    forall a: nat | atPhdr <= a < atPhdr + size
      ensures a in memory && memory[a].value == file[q.phoff + (a - atPhdr)]
    {
      InSegment(memory, s, file, a);
      assert a - s.vaddr == q.phoff + (a - atPhdr) - s.offset;
    }
  }

  lemma InSegment(m: Memory, s: Segment, file: seq<nat>, a: nat)
    requires Image(m, s, file) && InRange(a, s.vaddr, s.filesz) && s.filesz <= s.memsz
    ensures a in m && m[a].value == FileByte(file, s.offset + (a - s.vaddr))
  {
  }

  /** From the words in the stack of the tracee to its memory. */
  lemma TransferredScriptLoads(q: Request, halves: seq<nat>, above: seq<nat>, ps: seq<Segment>, rs: seq<Segment>,
                               files: nat -> seq<nat>, m: Memory, page: nat, limit: nat)
    requires Fits(q) && q.program.mappings != [] && |halves| == 2 * ScriptWords(q)
    requires Words64(halves, ScriptWords(q)) == ScriptOf(q)
    requires page > 0 && CanLoad(q, ps, rs, files, page, limit)
    requires String1(q) >= 0 && (q.interp.Some? ==> String2(q) >= 0)
    requires !SomeFaults(ps, files(String1(q)), page)
    requires q.interp.Some? ==> !SomeFaults(rs, files(String2(q)), page)
    ensures var trace := Interpret(Words64(halves, ScriptWords(q)) + above, Loader(true, 0));
      && trace.Some? && PlayAll(trace.value, World(m, None), files, page).Some?
      && Images(PlayAll(trace.value, World(m, None), files, page).value.memory, ps, files(String1(q)))
      && (q.interp.Some? ==>
            Images(PlayAll(trace.value, World(m, None), files, page).value.memory, rs, files(String2(q))))
  {
    TransferredScriptRuns(q, halves, above);
    RequestIsLoaded(q, ps, rs, files, m, page, limit);
  }
}
