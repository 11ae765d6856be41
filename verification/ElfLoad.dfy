/**
 From PT_LOAD program headers to page mappings (execve/enter.c:56-124), and the loader that executes
 the mappings (loader/loader.c:56-85, 144-170), against the segment image of the System V gABI,
 chapter 5, "Program Loading".
 */
module ElfLoad {
  import opened Wrappers

  /** sizeof(word_t) divides the page size. */
  predicate PageAndWord(page: nat, word: nat) {
    page > 0 && word > 0 && page % word == 0
  }

  const ADDRESS_SPACE: nat := 0x1_0000_0000_0000_0000

  // ---------------------------------------------------------------------
  // add_mapping
  // ---------------------------------------------------------------------

  const PF_X: nat := 1
  const PF_W: nat := 2
  const PF_R: nat := 4

  const PROT_READ: nat := 1
  const PROT_WRITE: nat := 2
  const PROT_EXEC: nat := 4

  /** `bit` is a power of two. */
  predicate Has(x: nat, bit: nat)
    requires bit > 0
  {
    x / bit % 2 == 1
  }

  /** The protection of the pages of a segment with these p_flags. */
  function Prot(flags: nat): (r: nat)
    ensures Has(r, PROT_READ) <==> Has(flags, PF_R)
    ensures Has(r, PROT_WRITE) <==> Has(flags, PF_W)
    ensures Has(r, PROT_EXEC) <==> Has(flags, PF_X)
  {
    (if Has(flags, PF_R) then PROT_READ else 0)
      + (if Has(flags, PF_W) then PROT_WRITE else 0)
      + (if Has(flags, PF_X) then PROT_EXEC else 0)
  }

  datatype Segment = Segment(vaddr: nat, offset: nat, filesz: nat, memsz: nat, flags: nat)

  datatype Mapping = Mapping(anonymous: bool, addr: nat, length: nat, offset: nat, clearLength: nat, prot: nat)

  /** `x & page_mask` for a page size that is a power of two. */
  function PageFloor(x: nat, page: nat): (r: nat)
    requires page > 0
    ensures r <= x < r + page
  {
    x - x % page
  }

  lemma MulStep(n: int, d: nat)
    requires n >= 1
    ensures n * d >= d
  {
    assert n * d == (n - 1) * d + d;
    MulNonNegative(n - 1, d);
  }

  lemma MulNonNegative(n: nat, d: nat)
    ensures n * d >= 0
  {
  }

  /** Quotient and remainder are unique. */
  lemma DivModIs(x: nat, d: nat, q: int, r: nat)
    requires d > 0 && r < d && x == q * d + r
    ensures x % d == r && x / d == q
  {
    var q2, r2 := x / d, x % d;
    assert x == q2 * d + r2;
    var n := q - q2;
    assert n * d == q * d - q2 * d;
    assert n * d == r2 - r;
    if n >= 1 {
      MulStep(n, d);
    } else if n <= -1 {
      MulStep(-n, d);
    }
  }

  lemma AddPage(x: nat, page: nat)
    requires page > 0
    ensures (x + page) % page == x % page && PageFloor(x + page, page) == PageFloor(x, page) + page
  {
    var q := x / page;
    assert (q + 1) * page == q * page + page;
    DivModIs(x + page, page, q + 1, x % page);
  }

  lemma SameRemainder(x: nat, y: nat, z: nat, page: nat)
    requires page > 0 && x % page == y % page
    ensures (x + z) % page == (y + z) % page
  {
    var n := x / page - y / page;
    assert n * page == (x / page) * page - (y / page) * page;
    assert x == y + n * page;
    var q, s := (y + z) / page, (y + z) % page;
    assert (q + n) * page == q * page + n * page;
    DivModIs(x + z, page, q + n, s);
  }

  /** Moving by whole pages moves the page boundaries along. */
  lemma FloorShift(x: nat, y: nat, z: nat, page: nat)
    requires page > 0 && x % page == y % page
    ensures PageFloor(x + z, page) - x == PageFloor(y + z, page) - y
  {
    SameRemainder(x, y, z, page);
  }

  lemma FloorMonotone(x: nat, y: nat, page: nat)
    requires page > 0 && x <= y
    ensures PageFloor(x, page) <= PageFloor(y, page)
  {
    var n := x / page - y / page;
    assert n * page == (x / page) * page - (y / page) * page;
    if n >= 1 { MulStep(n, page); }
    if n <= 0 { MulNonNegative(-n, page); assert (-n) * page == -(n * page); }
  }

  lemma FloorIsMultiple(x: nat, page: nat)
    requires page > 0
    ensures PageFloor(x, page) % page == 0 && PageFloor(PageFloor(x, page), page) == PageFloor(x, page)
  {
    DivModIs(PageFloor(x, page), page, x / page, 0);
  }

  /** A range whose length is a sum of floors: subtracting a multiple keeps floors. */
  lemma FloorOfDifference(a: nat, addr: nat, page: nat)
    requires page > 0 && addr <= a && addr % page == 0
    ensures PageFloor(a - addr, page) == PageFloor(a, page) - addr
  {
    var n := addr / page;
    var q, r := (a - addr) / page, (a - addr) % page;
    assert (q + n) * page == q * page + n * page;
    DivModIs(a, page, q + n, r);
  }

  /** Where the file part of a segment ends in memory. */
  function FileEnd(s: Segment, page: nat): nat
    requires page > 0
  {
    PageFloor(s.vaddr + s.filesz + page, page)
  }

  function FileMapping(s: Segment, page: nat): Mapping
    requires page > 0
  {
    AddPage(s.vaddr + s.filesz, page);
    FloorMonotone(s.vaddr, s.vaddr + s.filesz, page);
    var start := PageFloor(s.vaddr, page);
    Mapping(false, start, FileEnd(s, page) - start, PageFloor(s.offset, page),
            if s.memsz > s.filesz then FileEnd(s, page) - s.vaddr - s.filesz else 0, Prot(s.flags))
  }

  /** The mappings that add_mapping appends for one segment. */
  function MappingsOf(s: Segment, page: nat): seq<Mapping>
    requires page > 0
  {
    var end := FileEnd(s, page);
    var end2 := PageFloor(s.vaddr + s.memsz + page, page);
    [FileMapping(s, page)]
      + (if s.memsz > s.filesz && end2 > end then [Mapping(true, end, end2 - end, 0, 0, Prot(s.flags))] else [])
  }

  function MappingsOfAll(segments: seq<Segment>, page: nat): seq<Mapping>
    requires page > 0
  {
    if segments == [] then []
    else MappingsOfAll(segments[..|segments| - 1], page) + MappingsOf(segments[|segments| - 1], page)
  }

  class LoadInfo {
    var mappings: seq<Mapping>

    constructor ()
      ensures mappings == []
    {
      mappings := [];
    }

    method AddMapping(s: Segment, page: nat)
      requires page > 0 && s.vaddr + s.memsz + s.filesz + page < ADDRESS_SPACE
      modifies this
      ensures mappings == old(mappings) + MappingsOf(s, page)
    {
      hide Has, Prot, PageFloor;
      AddPage(s.vaddr + s.filesz, page);
      FloorMonotone(s.vaddr, s.vaddr + s.filesz, page);
      var index := |mappings|;
      var start := PageFloor(s.vaddr, page);
      var end := PageFloor(s.vaddr + s.filesz + page, page);
      mappings := mappings + [Mapping(false, start, end - start, PageFloor(s.offset, page), 0, Prot(s.flags))];
      if s.memsz > s.filesz {
        mappings := mappings[index := mappings[index].(clearLength := end - s.vaddr - s.filesz)];
        start := end;
        end := PageFloor(s.vaddr + s.memsz + page, page);
        if end > start {
          mappings := mappings + [Mapping(true, start, end - start, 0, 0, mappings[index].prot)];
        }
      }
    }

    /** add_load_base, on the mappings. */
    method AddLoadBase(base: nat)
      modifies this
      ensures mappings == Shifted(old(mappings), base)
    {
      ghost var before := mappings;
      var i := 0;
      while i < |mappings|
        invariant 0 <= i <= |mappings| == |before|
        invariant forall k :: 0 <= k < i ==> mappings[k] == before[k].(addr := before[k].addr + base)
        invariant forall k :: i <= k < |before| ==> mappings[k] == before[k]
      {
        mappings := mappings[i := mappings[i].(addr := mappings[i].addr + base)];
        i := i + 1;
      }
    }
  }

  function Shifted(mappings: seq<Mapping>, base: nat): (r: seq<Mapping>)
  {
    seq(|mappings|, i requires 0 <= i < |mappings| => mappings[i].(addr := mappings[i].addr + base))
  }

  // ---------------------------------------------------------------------
  // Memory
  // ---------------------------------------------------------------------

  /** A byte with the protection of its page. */
  datatype Cell = Cell(value: nat, prot: nat)

  /** The bytes that are there. */
  type Memory = map<nat, Cell>

  predicate InRange(a: nat, start: nat, length: nat) {
    start <= a < start + length
  }

  /** A page of a file mapping is accessible when it starts before the end of the file. */
  predicate Accessible(a: nat, addr: nat, offset: nat, size: nat, page: nat)
    requires page > 0 && addr <= a
  {
    offset + PageFloor(a - addr, page) < size
  }

  function FileByte(file: seq<nat>, i: nat): nat {
    if i < |file| then file[i] else 0
  }

  /** A fixed private file mapping replaces whatever was there. */
  function MapFile(m: Memory, x: Mapping, file: seq<nat>, page: nat): Memory
    requires page > 0
  {
    (map a: nat | a in m && !InRange(a, x.addr, x.length) :: m[a])
      + (map a: nat | x.addr <= a < x.addr + x.length && Accessible(a, x.addr, x.offset, |file|, page)
           :: Cell(FileByte(file, x.offset + (a - x.addr)), x.prot))
  }

  function MapAnonymous(m: Memory, addr: nat, length: nat, prot: nat): Memory {
    (map a: nat | a in m && !InRange(a, addr, length) :: m[a])
      + (map a: nat | addr <= a < addr + length && InRange(a, addr, length) :: Cell(0, prot))
  }

  /** A store succeeds: the byte is there and its page is writable. */
  predicate Writable(m: Memory, a: nat) {
    a in m && Has(m[a].prot, PROT_WRITE)
  }

  predicate AllWritable(m: Memory, start: nat, end: nat) {
    forall a: nat :: start <= a < end ==> Writable(m, a)
  }

  function ZeroIn(m: Memory, start: nat, end: nat): Memory {
    map a: nat | a in m :: if start <= a < end then m[a].(value := 0) else m[a]
  }

  /** Zeroes [start, end), or None when a byte of it cannot be written. */
  function Zeroed(m: Memory, start: nat, end: nat): Option<Memory> {
    if AllWritable(m, start, end) then Some(ZeroIn(m, start, end)) else None
  }

  /** One load statement: map, then clear the end of a file mapping. */
  function LoadOne(m: Memory, x: Mapping, file: seq<nat>, page: nat): Option<Memory>
    requires page > 0
  {
    if x.anonymous then Some(MapAnonymous(m, x.addr, x.length, x.prot))
    else
      var r := MapFile(m, x, file, page);
      if x.clearLength == 0 || x.clearLength > x.addr + x.length then Some(r)
      else Zeroed(r, x.addr + x.length - x.clearLength, x.addr + x.length)
  }

  function LoadAll(m: Memory, mappings: seq<Mapping>, file: seq<nat>, page: nat): Option<Memory>
    requires page > 0
    decreases |mappings|
  {
    if mappings == [] then Some(m)
    else match LoadOne(m, mappings[0], file, page)
      case Some(r) => LoadAll(r, mappings[1..], file, page)
      case None => None
  }

  // ---------------------------------------------------------------------
  // The segment image
  // ---------------------------------------------------------------------

  /** A segment of the file that the gABI allows: congruent and inside of the file. */
  predicate Loadable(s: Segment, file: seq<nat>, page: nat)
    requires page > 0
  {
    s.vaddr % page == s.offset % page && s.filesz <= s.memsz && s.offset + s.filesz <= |file|
  }

  function SegmentByte(s: Segment, k: nat, file: seq<nat>): nat {
    if k < s.filesz then FileByte(file, s.offset + k) else 0
  }

  /** Bytes vaddr + k hold the file for k < filesz, and 0 up to memsz, with the protection of the segment. */
  ghost predicate Image(m: Memory, s: Segment, file: seq<nat>) {
    forall a: nat :: InRange(a, s.vaddr, s.memsz) ==>
      a in m && m[a] == Cell(SegmentByte(s, a - s.vaddr, file), Prot(s.flags))
  }

  /**
   There is something to clear, on a page that is not writable, or on one that starts beyond the end of
   the file.
   */
  predicate ClearFaults(s: Segment, file: seq<nat>, page: nat)
    requires page > 0
  {
    s.memsz > s.filesz && (!Has(s.flags, PF_W) || PageFloor(s.offset + s.filesz, page) >= |file|)
  }

  predicate Ascending(segments: seq<Segment>, page: nat)
    requires page > 0
  {
    forall i, j :: 0 <= i < j < |segments| ==> segments[i].vaddr + segments[i].memsz <= PageFloor(segments[j].vaddr, page)
  }

  // ---------------------------------------------------------------------
  // Executing the mappings of one segment
  // ---------------------------------------------------------------------

  function FileMapped(m: Memory, s: Segment, file: seq<nat>, page: nat): Memory
    requires page > 0
  {
    MapFile(m, FileMapping(s, page), file, page)
  }

  /** The file mapping shows byte offset + k at vaddr + k. */
  lemma FileMappedByte(m: Memory, s: Segment, file: seq<nat>, page: nat, a: nat)
    requires page > 0 && Loadable(s, file, page) && InRange(a, s.vaddr, s.filesz)
    ensures var r := FileMapped(m, s, file, page); a in r && r[a] == Cell(FileByte(file, s.offset + (a - s.vaddr)), Prot(s.flags))
  {
    FloorShift(s.vaddr, s.offset, 0, page);
    FloorMonotone(s.vaddr, s.vaddr + s.filesz, page);
    AddPage(s.vaddr + s.filesz, page);
  }

  /** The bytes after the file part share the page that holds the end of the file part. */
  lemma TailAccessible(m: Memory, s: Segment, file: seq<nat>, page: nat, a: nat)
    requires page > 0 && Loadable(s, file, page) && s.vaddr + s.filesz <= a < FileEnd(s, page)
    ensures a in FileMapped(m, s, file, page) <==> PageFloor(s.offset + s.filesz, page) < |file|
    ensures a in FileMapped(m, s, file, page) ==> FileMapped(m, s, file, page)[a].prot == Prot(s.flags)
  {
    var start := PageFloor(s.vaddr, page);
    AddPage(s.vaddr + s.filesz, page);
    FloorShift(s.vaddr, s.offset, 0, page);
    FloorShift(s.vaddr, s.offset, s.filesz, page);
    FloorMonotone(s.vaddr, s.vaddr + s.filesz, page);
    FloorIsMultiple(s.vaddr, page);
    FloorOfDifference(a, start, page);
    FloorWithin(a, s.vaddr + s.filesz, page);
    assert PageFloor(s.offset, page) + PageFloor(a - start, page) == PageFloor(s.offset + s.filesz, page);
  }

  lemma FloorWithin(a: nat, x: nat, page: nat)
    requires page > 0 && x <= a < PageFloor(x, page) + page
    ensures PageFloor(a, page) == PageFloor(x, page)
  {
    var f := PageFloor(x, page);
    DivModIs(a, page, x / page, a - f);
  }

  /** Clearing the end of the file mapping succeeds exactly when its last page can be written. */
  lemma TailZeroed(m: Memory, s: Segment, file: seq<nat>, page: nat)
    requires page > 0 && Loadable(s, file, page)
    ensures var z := Zeroed(FileMapped(m, s, file, page), s.vaddr + s.filesz, FileEnd(s, page));
      && (z.Some? <==> Has(s.flags, PF_W) && PageFloor(s.offset + s.filesz, page) < |file|)
      && (z.Some? ==> forall a: nat :: s.vaddr + s.filesz <= a < FileEnd(s, page) ==>
            a in z.value && z.value[a] == Cell(0, Prot(s.flags)))
  {
    AddPage(s.vaddr + s.filesz, page);
    var r := FileMapped(m, s, file, page);
    var z := Zeroed(r, s.vaddr + s.filesz, FileEnd(s, page));
    forall a: nat | s.vaddr + s.filesz <= a < FileEnd(s, page)
      ensures Writable(r, a) <==> Has(s.flags, PF_W) && PageFloor(s.offset + s.filesz, page) < |file|
      ensures a in r ==> r[a].prot == Prot(s.flags)
    {
      TailAccessible(m, s, file, page, a);
    }
    assert s.vaddr + s.filesz < FileEnd(s, page);
    if z.Some? {
      assert Writable(r, s.vaddr + s.filesz);
    }
  }

  /** Nothing below `limit` differs. */
  ghost predicate SameBelow(m: Memory, r: Memory, limit: nat) {
    forall a: nat :: a < limit ==> (a in m <==> a in r) && (a in m ==> m[a] == r[a])
  }

  lemma PlainSegment(m: Memory, s: Segment, file: seq<nat>, page: nat)
    requires page > 0 && Loadable(s, file, page) && s.memsz == s.filesz
    ensures var r := LoadAll(m, MappingsOf(s, page), file, page);
      && r == Some(FileMapped(m, s, file, page))
      && Image(r.value, s, file) && SameBelow(m, r.value, PageFloor(s.vaddr, page))
  {
    var r := FileMapped(m, s, file, page);
    forall a: nat | InRange(a, s.vaddr, s.memsz) ensures a in r && r[a] == Cell(SegmentByte(s, a - s.vaddr, file), Prot(s.flags)) {
      FileMappedByte(m, s, file, page, a);
    }
    assert MappingsOf(s, page)[1..] == [];
  }

  lemma TailOfFileMapping(s: Segment, page: nat)
    requires page > 0 && s.memsz > s.filesz
    ensures var x := FileMapping(s, page);
      && x.clearLength > 0 && x.addr + x.length == FileEnd(s, page)
      && x.addr + x.length - x.clearLength == s.vaddr + s.filesz
  {
    AddPage(s.vaddr + s.filesz, page);
  }

  lemma FilePartIsZeroed(m: Memory, s: Segment, file: seq<nat>, page: nat)
    requires page > 0 && s.memsz > s.filesz
    ensures LoadOne(m, FileMapping(s, page), file, page)
         == Zeroed(FileMapped(m, s, file, page), s.vaddr + s.filesz, FileEnd(s, page))
  {
    TailOfFileMapping(s, page);
    ClearedTail(m, FileMapping(s, page), file, page);
  }

  lemma ClearedTail(m: Memory, x: Mapping, file: seq<nat>, page: nat)
    requires page > 0 && !x.anonymous && 0 < x.clearLength <= x.addr + x.length
    ensures LoadOne(m, x, file, page) == Zeroed(MapFile(m, x, file, page),
                                                x.addr + x.length - x.clearLength, x.addr + x.length)
  {
  }

  /** The cleared file mapping of a segment whose memory size exceeds its file size. */
  lemma FilePart(m: Memory, s: Segment, file: seq<nat>, page: nat)
    requires page > 0 && Loadable(s, file, page) && s.memsz > s.filesz
    ensures var r := LoadOne(m, FileMapping(s, page), file, page);
      && (r.None? <==> ClearFaults(s, file, page))
      && (r.Some? ==>
            && (forall a: nat :: InRange(a, s.vaddr, FileEnd(s, page) - s.vaddr)
                  ==> a in r.value && r.value[a] == Cell(SegmentByte(s, a - s.vaddr, file), Prot(s.flags)))
            && SameBelow(m, r.value, PageFloor(s.vaddr, page)))
  {
    var mapped := FileMapped(m, s, file, page);
    FilePartIsZeroed(m, s, file, page);
    TailZeroed(m, s, file, page);
    var z := Zeroed(mapped, s.vaddr + s.filesz, FileEnd(s, page));
    if z.Some? {
      assert SameBelow(m, mapped, PageFloor(s.vaddr, page));
      FloorMonotone(s.vaddr, s.vaddr + s.filesz, page);
      forall a: nat | InRange(a, s.vaddr, FileEnd(s, page) - s.vaddr)
        ensures a in z.value && z.value[a] == Cell(SegmentByte(s, a - s.vaddr, file), Prot(s.flags))
      {
        if a < s.vaddr + s.filesz { FileMappedByte(m, s, file, page, a); }
      }
    }
  }

  /** The mappings of one segment produce its image, or fault exactly when ClearFaults holds. */
  lemma SegmentLoads(m: Memory, s: Segment, file: seq<nat>, page: nat)
    requires page > 0 && Loadable(s, file, page)
    ensures var r := LoadAll(m, MappingsOf(s, page), file, page);
      && (r.None? <==> ClearFaults(s, file, page))
      && (r.Some? ==> Image(r.value, s, file) && SameBelow(m, r.value, PageFloor(s.vaddr, page)))
  {
    if s.memsz == s.filesz {
      PlainSegment(m, s, file, page);
    } else {
      FilePart(m, s, file, page);
      var xs := MappingsOf(s, page);
      assert xs[0] == FileMapping(s, page);
      var r := LoadOne(m, xs[0], file, page);
      AddPage(s.vaddr + s.memsz, page);
      AddPage(s.vaddr + s.filesz, page);
      FloorMonotone(s.vaddr, s.vaddr + s.filesz, page);
      if r.Some? {
        if |xs| == 1 {
          assert xs[1..] == [];
        } else {
          assert xs[1..] == [xs[1]] && xs[1..][1..] == [];
          var u := MapAnonymous(r.value, xs[1].addr, xs[1].length, xs[1].prot);
          assert LoadAll(r.value, xs[1..], file, page) == Some(u);
          forall a: nat | InRange(a, s.vaddr, s.memsz) ensures a in u && u[a] == Cell(SegmentByte(s, a - s.vaddr, file), Prot(s.flags)) {
          }
        }
      }
    }
  }

  lemma {:induction false} LoadAllAppend(m: Memory, a: seq<Mapping>, b: seq<Mapping>, file: seq<nat>, page: nat)
    requires page > 0
    ensures LoadAll(m, a + b, file, page) ==
      match LoadAll(m, a, file, page)
      case Some(r) => LoadAll(r, b, file, page)
      case None => None
    decreases |a|
  {
    if a == [] {
      assert a + b == b;
    } else {
      assert (a + b)[0] == a[0] && (a + b)[1..] == a[1..] + b;
      var r := LoadOne(m, a[0], file, page);
      if r.Some? { LoadAllAppend(r.value, a[1..], b, file, page); }
    }
  }

  lemma ImageKept(m: Memory, r: Memory, s: Segment, file: seq<nat>, limit: nat)
    requires Image(m, s, file) && SameBelow(m, r, limit) && s.vaddr + s.memsz <= limit
    ensures Image(r, s, file)
  {
  }

  lemma NothingToLoad(m: Memory, file: seq<nat>, page: nat)
    requires page > 0
    ensures LoadAll(m, MappingsOfAll([], page), file, page) == Some(m)
  {
  }

  /**
   The loader leaves the gABI image of every segment of an ascending, page-disjoint list, whatever was
   mapped before.  It faults exactly when some segment has memory beyond its file part while it is not
   writable, or while that part ends on a page boundary that is also the end of the file (or past the
   file's last page).
   */
  lemma {:induction false} SegmentsLoad(m: Memory, segments: seq<Segment>, file: seq<nat>, page: nat)
    requires page > 0 && Ascending(segments, page)
    requires forall i :: 0 <= i < |segments| ==> Loadable(segments[i], file, page)
    ensures var r := LoadAll(m, MappingsOfAll(segments, page), file, page);
      && (r.None? <==> exists i :: 0 <= i < |segments| && ClearFaults(segments[i], file, page))
      && (r.Some? ==> forall i :: 0 <= i < |segments| ==> Image(r.value, segments[i], file))
    decreases |segments|
  {
    hide Image, ClearFaults, MappingsOf, LoadAll;
    if segments == [] {
      NothingToLoad(m, file, page);
    } else {
      var front, last := segments[..|segments| - 1], segments[|segments| - 1];
      SegmentsLoad(m, front, file, page);
      LoadAllAppend(m, MappingsOfAll(front, page), MappingsOf(last, page), file, page);
      var u := LoadAll(m, MappingsOfAll(front, page), file, page);
      if u.None? {
        var i :| 0 <= i < |front| && ClearFaults(front[i], file, page);
        assert ClearFaults(segments[i], file, page);
      } else {
        assert forall i :: 0 <= i < |front| ==> !ClearFaults(segments[i], file, page) by {
          assert forall i :: 0 <= i < |front| ==> front[i] == segments[i];
        }
        SegmentLoads(u.value, last, file, page);
        var r := LoadAll(u.value, MappingsOf(last, page), file, page);
        if r.Some? {
          forall i | 0 <= i < |segments| ensures Image(r.value, segments[i], file) {
            if i < |front| {
              assert front[i] == segments[i];
              ImageKept(u.value, r.value, segments[i], file, PageFloor(last.vaddr, page));
            }
          }
        }
      }
    }
  }

  /**
   One byte in the file and one to clear: when the segment can only be read every load faults, and when
   it can be written as well none does.
   */
  lemma ReadOnlyTailFaults(m: Memory, s: Segment, file: seq<nat>, page: nat)
    requires page == 0x1000 && file == [7] && s.vaddr == page && s.offset == 0 && s.filesz == 1 && s.memsz == 2
    ensures s.flags == PF_R ==> LoadAll(m, MappingsOf(s, page), file, page) == None
    ensures s.flags == PF_R + PF_W ==> LoadAll(m, MappingsOf(s, page), file, page).Some?
  {
    hide LoadAll, MappingsOf, Image, SameBelow, Loadable, ClearFaults, Has;
    OneByteTail(s, file, page);
    ReadAndWrite();
    SegmentLoads(m, s, file, page);
  }

  lemma OneByteTail(s: Segment, file: seq<nat>, page: nat)
    requires page == 0x1000 && file == [7] && s.vaddr == page && s.offset == 0 && s.filesz == 1 && s.memsz == 2
    ensures Loadable(s, file, page) && (ClearFaults(s, file, page) <==> !Has(s.flags, PF_W))
  {
    hide Has;
    DivModIs(s.vaddr, page, 1, 0);
    DivModIs(1, page, 0, 1);
  }

  lemma ReadAndWrite()
    ensures !Has(PF_R, PF_W) && Has(PF_R + PF_W, PF_W)
  {
  }

  // ---------------------------------------------------------------------
  // Position independent objects
  // ---------------------------------------------------------------------

  /** Adding a page-aligned load base to the mappings loads every segment at its shifted address. */
  lemma LoadBaseShifts(s: Segment, base: nat, page: nat)
    requires page > 0 && base % page == 0
    ensures MappingsOf(s.(vaddr := s.vaddr + base), page) == Shifted(MappingsOf(s, page), base)
  {
    hide PageFloor, Has, Prot;
    var u := s.(vaddr := s.vaddr + base);
    SameRemainder(base, 0, s.vaddr, page);
    assert (s.vaddr + base) % page == s.vaddr % page;
    FloorShift(u.vaddr, s.vaddr, 0, page);
    FloorShift(u.vaddr, s.vaddr, s.filesz + page, page);
    FloorShift(u.vaddr, s.vaddr, s.memsz + page, page);
    assert u.vaddr + (s.filesz + page) == u.vaddr + s.filesz + page;
    assert |MappingsOf(u, page)| == |MappingsOf(s, page)|;
  }

  // ---------------------------------------------------------------------
  // The loader's own loops
  // ---------------------------------------------------------------------

  function Ceiling(x: nat, word: nat): (r: nat)
    requires word > 0
    ensures x <= r < x + word
  {
    if x % word == 0 then x else x + word - x % word
  }

  /** The bytes that clear(start, end) writes: [ClearLow, ClearHigh). */
  function ClearLow(start: nat, end: nat, word: nat): nat
    requires word > 0
  {
    if PageFloor(end, word) < start then PageFloor(end, word) else start
  }

  function ClearHigh(start: nat, end: nat, word: nat): nat
    requires word > 0
  {
    if Ceiling(start, word) > end then Ceiling(start, word) else end
  }

  /**
   clear(start, end) writes exactly [start, end) if and only if start is aligned, or the next word
   boundary after start is not beyond end.
   */
  lemma ClearIsExact(start: nat, end: nat, word: nat)
    requires word > 0 && start <= end
    ensures ClearLow(start, end, word) == start && ClearHigh(start, end, word) == end
        <==> start % word == 0 || Ceiling(start, word) <= end
  {
    FloorMonotone(start, end, word);
    FloorIsMultiple(start, word);
    if start % word != 0 && Ceiling(start, word) <= end {
      var c := Ceiling(start, word);
      AddPage(start, word);
      FloorMonotone(c, end, word);
      FloorIsMultiple(start + word, word);
      assert c == PageFloor(start + word, word);
    }
  }

  /** The end that add_mapping hands to clear is a page boundary, so the clearing is exact. */
  lemma ClearOfMappingIsExact(s: Segment, page: nat, word: nat)
    requires PageAndWord(page, word) && s.memsz > s.filesz
    ensures ClearLow(s.vaddr + s.filesz, FileEnd(s, page), word) == s.vaddr + s.filesz
    ensures ClearHigh(s.vaddr + s.filesz, FileEnd(s, page), word) == FileEnd(s, page)
  {
    var start, end := s.vaddr + s.filesz, FileEnd(s, page);
    AddPage(start, page);
    WordAligned(s.vaddr + s.filesz + page, page, word);
    ClearIsExact(start, end, word);
    if start % word != 0 {
      AddPage(start, word);
      assert Ceiling(start, word) == PageFloor(start, word) + word;
      CeilingBelow(start, end, word);
    }
  }

  lemma WordAligned(x: nat, page: nat, word: nat)
    requires PageAndWord(page, word)
    ensures PageFloor(x, page) % word == 0
  {
    var n, k := x / page, page / word;
    assert PageFloor(x, page) == n * page && page == k * word;
    assert n * (k * word) == (n * k) * word;
    DivModIs(n * page, word, n * k, 0);
  }

  lemma CeilingBelow(x: nat, end: nat, word: nat)
    requires word > 0 && end % word == 0 && x <= end
    ensures Ceiling(x, word) <= end
  {
    if x % word != 0 {
      FloorMonotone(x, end, word);
      var n := end / word - x / word;
      assert n * word == (end / word) * word - (x / word) * word;
      if n <= 0 { MulNonNegative(-n, word); }
      MulStep(n, word);
    }
  }

  /** Zeroing changes no protection. */
  lemma ZeroedIsWritable(m: Memory, start: nat, end: nat, low: nat, high: nat)
    ensures AllWritable(ZeroIn(m, start, end), low, high) <==> AllWritable(m, low, high)
  {
    var r := ZeroIn(m, start, end);
    assert forall a: nat :: Writable(r, a) <==> Writable(m, a);
  }

  lemma ZeroNothing(m: Memory, a: nat)
    ensures ZeroIn(m, a, a) == m
  {
  }

  lemma ZeroTwice(m: Memory, a: nat, b: nat, c: nat, d: nat)
    requires a <= b && c <= d && a <= d && c <= b
    ensures ZeroIn(ZeroIn(m, a, b), c, d) == ZeroIn(m, if a < c then a else c, if b < d then d else b)
  {
  }

  class AddressSpace {
    var bytes: Memory

    constructor ()
      ensures bytes == map[]
    {
      bytes := map[];
    }

    /** A byte loop of clear(); false when it hits a byte that cannot be written. */
    method ZeroBytes(start: nat, end: nat) returns (ok: bool)
      modifies this
      ensures ok <==> start >= end || AllWritable(old(bytes), start, end)
      ensures ok && start < end ==> bytes == ZeroIn(old(bytes), start, end)
      ensures start >= end ==> bytes == old(bytes)
      ensures bytes.Keys == old(bytes).Keys
    {
      var cursor := start;
      assert ZeroIn(bytes, start, start) == bytes;
      while cursor < end
        invariant start <= cursor && (if start < end then cursor <= end else cursor == start)
        invariant bytes == ZeroIn(old(bytes), start, cursor) && AllWritable(old(bytes), start, cursor)
      {
        ZeroedIsWritable(old(bytes), start, cursor, cursor, cursor + 1);
        assert Writable(bytes, cursor) <==> Writable(old(bytes), cursor);
        if cursor !in bytes || !Has(bytes[cursor].prot, PROT_WRITE) {
          return false;
        }
        bytes := bytes[cursor := bytes[cursor].(value := 0)];
        cursor := cursor + 1;
      }
      return true;
    }

    /** The word loop of clear(). */
    method ZeroWords(start: nat, end: nat, word: nat) returns (ok: bool)
      requires word > 0 && (start < end ==> (end - start) % word == 0)
      modifies this
      ensures ok <==> start >= end || AllWritable(old(bytes), start, end)
      ensures ok && start < end ==> bytes == ZeroIn(old(bytes), start, end)
      ensures start >= end ==> bytes == old(bytes)
      ensures bytes.Keys == old(bytes).Keys
    {
      var cursor := start;
      assert ZeroIn(bytes, start, start) == bytes;
      while cursor < end
        invariant start <= cursor
        invariant if start < end then cursor <= end && (end - cursor) % word == 0 else cursor == start
        invariant bytes == ZeroIn(old(bytes), start, cursor) && AllWritable(old(bytes), start, cursor)
      {
        WholeWord(end - cursor, word);
        ZeroedIsWritable(old(bytes), start, cursor, cursor, cursor + word);
        ok := ZeroBytes(cursor, cursor + word);
        if !ok {
          return false;
        }
        ZeroTwice(old(bytes), start, cursor, cursor, cursor + word);
        cursor := cursor + word;
      }
      return true;
    }

    /** clear(): the misaligned head, the words, the misaligned tail. */
    method Clear(start: nat, end: nat, word: nat) returns (ok: bool)
      requires word > 0 && start <= end
      modifies this
      ensures ok <==> AllWritable(old(bytes), ClearLow(start, end, word), ClearHigh(start, end, word))
      ensures ok ==> bytes == ZeroIn(old(bytes), ClearLow(start, end, word), ClearHigh(start, end, word))
    {
      hide Writable, ZeroIn;
      ghost var m := bytes;
      var startAligned := Ceiling(start, word);
      var endAligned := PageFloor(end, word);
      Rounding(start, end, word);
      ZeroNothing(m, start);
      ok := ZeroBytes(start, startAligned);
      if !ok {
        return false;
      }
      assert bytes == ZeroIn(m, start, startAligned);
      ZeroedIsWritable(m, start, startAligned, startAligned, endAligned);
      ok := ZeroWords(startAligned, endAligned, word);
      if !ok {
        return false;
      }
      ghost var reached := if startAligned < endAligned then endAligned else startAligned;
      if startAligned < endAligned { ZeroTwice(m, start, startAligned, startAligned, endAligned); }
      assert bytes == ZeroIn(m, start, reached);
      ZeroedIsWritable(m, start, reached, endAligned, end);
      ok := ZeroBytes(endAligned, end);
      if ok { ZeroTwice(m, start, reached, endAligned, end); }
    }

    /** One MMAP_FILE or MMAP_ANON statement of the loader. */
    method LoadMapping(x: Mapping, file: seq<nat>, page: nat, word: nat) returns (ok: bool)
      requires page > 0 && word > 0 && x.clearLength <= x.length && (x.addr + x.length) % word == 0
      modifies this
      ensures ok <==> LoadOne(old(bytes), x, file, page).Some?
      ensures ok ==> bytes == LoadOne(old(bytes), x, file, page).value
    {
      if x.anonymous {
        bytes := MapAnonymous(bytes, x.addr, x.length, x.prot);
        return true;
      }
      bytes := MapFile(bytes, x, file, page);
      if x.clearLength != 0 {
        var start, end := x.addr + x.length - x.clearLength, x.addr + x.length;
        ClearIsExact(start, end, word);
        CeilingBelow(start, end, word);
        ok := Clear(start, end, word);
      } else {
        ok := true;
      }
    }
  }

  lemma WholeWord(x: nat, word: nat)
    requires word > 0 && x > 0 && x % word == 0
    ensures x >= word && (x - word) % word == 0
  {
    if x >= word { AddPage(x - word, word); }
  }

  lemma CeilingIsMultiple(x: nat, word: nat)
    requires word > 0
    ensures Ceiling(x, word) % word == 0
  {
    FloorIsMultiple(x, word);
    AddPage(x, word);
    FloorIsMultiple(x + word, word);
  }

  /** The words of clear() are whole, and when its tail reaches below start its head reaches end. */
  lemma Rounding(start: nat, end: nat, word: nat)
    requires word > 0 && start <= end
    ensures Ceiling(start, word) < PageFloor(end, word) ==>
      (PageFloor(end, word) - Ceiling(start, word)) % word == 0
    ensures PageFloor(end, word) < start ==> Ceiling(start, word) >= end
  {
    var c, f := Ceiling(start, word), PageFloor(end, word);
    CeilingIsMultiple(start, word);
    FloorIsMultiple(end, word);
    if c < f { DifferenceOfMultiples(f, c, word); }
    if f < start { FloorWithin(start, f, word); }
  }

  lemma DifferenceOfMultiples(f: nat, c: nat, word: nat)
    requires word > 0 && c <= f && f % word == 0 && c % word == 0
    ensures (f - c) % word == 0
  {
    var n := f / word - c / word;
    assert n * word == (f / word) * word - (c / word) * word;
    DivModIs(f - c, word, n, 0);
  }
}
