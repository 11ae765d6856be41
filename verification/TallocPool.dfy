/**
 talloc pools without memory limits (talloc/talloc.c:600-734, 820-855, 1025-1099, 1188-1217,
 1837-2018): a bump pointer, an object count, and reallocation in place.  A pool inside another
 pool is not part of this model.
 */
module TallocPool {
  import opened Wrappers

  /** TC_ALIGN16: the least multiple of 16 that is not smaller. */
  function Align16(s: nat): (r: nat)
    ensures s <= r < s + 16
  {
    if s == 0 then 0 else if s <= 16 then 16 else 16 + Align16(s - 16)
  }

  lemma {:induction false} AlignedAfter(at: nat, s: nat)
    requires at % 16 == 0
    ensures (at + Align16(s)) % 16 == 0
    decreases s
  {
    if s > 16 {
      AlignedAfter(at, s - 16);
    }
  }

  function Min(a: nat, b: nat): nat {
    if a < b then a else b
  }

  /** Where a chunk is after talloc_realloc; memory from malloc is known by its contents. */
  datatype Moved = InPool(chunk: nat) | Malloced(contents: seq<nat>)

  /** The bytes a member occupies, header included. */
  function Space(size: map<nat, nat>, header: nat, a: nat): nat
    requires a in size
  {
    Align16(header + size[a])
  }

  /** Members are aligned and lie between the first chunk and the bump pointer. */
  ghost predicate Fits(size: map<nat, nat>, header: nat, first: nat, end: nat, a: nat)
    requires a in size
  {
    a % 16 == 0 && first <= a && a + Space(size, header, a) <= end
  }

  /** Members do not overlap. */
  ghost predicate Apart(size: map<nat, nat>, header: nat, a: nat, b: nat)
    requires a in size && b in size
  {
    a != b ==> a + Space(size, header, a) <= b || b + Space(size, header, b) <= a
  }

  ghost predicate Laid(size: map<nat, nat>, header: nat, first: nat, end: nat) {
    && (forall a {:trigger Fits(size, header, first, end, a)} :: a in size ==> Fits(size, header, first, end, a))
    && (forall a, b {:trigger Apart(size, header, a, b)} :: a in size && b in size ==> Apart(size, header, a, b))
  }

  /** A new member at the bump pointer. */
  lemma LaidWithNew(size: map<nat, nat>, header: nat, first: nat, end: nat, wanted: nat, end': nat)
    requires Laid(size, header, first, end) && first <= end && end % 16 == 0 && header > 0
    requires end' == end + Align16(header + wanted)
    ensures end !in size && end' % 16 == 0
    ensures Laid(size[end := wanted], header, first, end')
  {
    AlignedAfter(end, header + wanted);
    assert end in size ==> Fits(size, header, first, end, end);
    var after := size[end := wanted];
    forall a | a in after
      ensures Fits(after, header, first, end', a)
    {
      assert a != end ==> Fits(size, header, first, end, a);
    }
    forall a, b | a in after && b in after
      ensures Apart(after, header, a, b)
    {
      assert a != end ==> Fits(size, header, first, end, a);
      assert b != end ==> Fits(size, header, first, end, b);
      assert a != end && b != end ==> Apart(size, header, a, b);
    }
  }

  /** A member less, and a bump pointer that no other member reaches. */
  lemma LaidWithout(size: map<nat, nat>, header: nat, first: nat, end: nat, a: nat, end': nat)
    requires Laid(size, header, first, end)
    requires forall b :: b in size && b != a ==> b + Space(size, header, b) <= end'
    ensures Laid(size - {a}, header, first, end')
  {
    var after := size - {a};
    forall b | b in after
      ensures Fits(after, header, first, end', b)
    {
      assert Fits(size, header, first, end, b);
    }
    forall b, c | b in after && c in after
      ensures Apart(after, header, b, c)
    {
      assert Apart(size, header, b, c);
    }
  }

  /** The last member in memory can go, and grow or shrink up to the bump pointer. */
  lemma LastMember(size: map<nat, nat>, header: nat, first: nat, end: nat, a: nat, b: nat)
    requires Laid(size, header, first, end) && a in size && b in size && b != a && header > 0
    requires end == a + Space(size, header, a)
    ensures b + Space(size, header, b) <= a
  {
    assert Apart(size, header, a, b) && Fits(size, header, first, end, b);
  }

  /** A member changes its size where no other member and not the bump pointer is in the way. */
  lemma LaidResized(size: map<nat, nat>, header: nat, first: nat, end: nat, a: nat, wanted: nat, end': nat)
    requires Laid(size, header, first, end) && a in size
    requires a + Align16(header + wanted) <= end'
    requires forall b :: b in size && b != a ==> b + Space(size, header, b) <= end'
    requires forall b :: b in size && b != a ==> b + Space(size, header, b) <= a || a + Align16(header + wanted) <= b
    ensures Laid(size[a := wanted], header, first, end')
  {
    var after := size[a := wanted];
    forall b | b in after
      ensures Fits(after, header, first, end', b)
    {
      assert Fits(size, header, first, end, b);
    }
    forall b, c | b in after && c in after
      ensures Apart(after, header, b, c)
    {
      assert Apart(size, header, b, c);
    }
  }

  lemma {:induction false} AlignMonotone(s: nat, t: nat)
    requires s <= t
    ensures Align16(s) <= Align16(t)
    decreases s
  {
    if s > 16 {
      AlignMonotone(s - 16, t - 16);
    }
  }

  /** The new size fits in the space of the member, or the bump pointer moves with it. */
  ghost predicate CanGrow(size: map<nat, nat>, header: nat, end: nat, limit: nat, a: nat, wanted: nat, end': nat) {
    && a in size && end <= end' <= limit && end' % 16 == 0
    && if end' == end then Align16(header + wanted) == Space(size, header, a)
       else end == a + Space(size, header, a) && end' == a + Align16(header + wanted)
  }

  lemma GrowStaysLaid(size: map<nat, nat>, header: nat, first: nat, end: nat, a: nat, wanted: nat, end': nat)
    requires Laid(size, header, first, end) && header > 0
    requires exists limit :: CanGrow(size, header, end, limit, a, wanted, end')
    ensures Laid(size[a := wanted], header, first, end')
  {
    assert Fits(size, header, first, end, a);
    forall b | b in size && b != a
      ensures b + Space(size, header, b) <= end'
      ensures b + Space(size, header, b) <= a || a + Align16(header + wanted) <= b
    {
      assert Fits(size, header, first, end, b) && Apart(size, header, a, b);
      if end' != end {
        LastMember(size, header, first, end, a, b);
      }
    }
    LaidResized(size, header, first, end, a, wanted, end');
  }

  lemma OnlyMember(size: map<nat, nat>, header: nat, first: nat, a: nat, wanted: nat, after: map<nat, nat>)
    requires size.Keys == {a} && first % 16 == 0 && after == map[first := wanted]
    ensures |size| == 1 && |after| == 1 && after != map[] && size != map[]
    ensures (first + Align16(header + wanted)) % 16 == 0
    ensures Laid(after, header, first, first + Align16(header + wanted))
  {
    AlignedAfter(first, header + wanted);
    assert |size| == |size.Keys| && |after| == |after.Keys| == |{first}|;
    assert Fits(after, header, first, first + Align16(header + wanted), first);
  }

  lemma ShrinkStaysLaid(size: map<nat, nat>, header: nat, first: nat, end: nat, a: nat, wanted: nat, end': nat)
    requires Laid(size, header, first, end) && a in size && wanted < size[a] && header > 0
    requires end' == if a + Space(size, header, a) == end then a + Align16(header + wanted) else end
    ensures first <= end' <= end && (end % 16 == 0 ==> end' % 16 == 0)
    ensures Laid(size[a := wanted], header, first, end')
  {
    AlignMonotone(header + wanted, header + size[a]);
    assert Fits(size, header, first, end, a);
    AlignedAfter(a, header + wanted);
    forall b | b in size && b != a
      ensures b + Space(size, header, b) <= end'
      ensures b + Space(size, header, b) <= a || a + Align16(header + wanted) <= b
    {
      assert Fits(size, header, first, end, b) && Apart(size, header, a, b);
      if a + Space(size, header, a) == end {
        LastMember(size, header, first, end, a, b);
      }
    }
    LaidResized(size, header, first, end, a, wanted, end');
  }

  /** `n` bytes of the pool's memory. */
  function Slice(data: seq<nat>, from: int, n: nat): seq<nat> {
    if 0 <= from && from + n <= |data| then data[from..from + n] else []
  }

  /** memmove of `n` bytes. */
  function MovedBytes(data: seq<nat>, dst: nat, src: nat, n: nat): seq<nat>
    requires src + n <= |data|
  {
    seq(|data|, i requires 0 <= i < |data| => if dst <= i < dst + n then data[src + i - dst] else data[i])
  }

  lemma MovedBytesCopy(data: seq<nat>, dst: nat, src: nat, n: nat, offset: nat, k: nat)
    requires src + n <= |data| && dst + n <= |data| && offset + k <= n
    ensures Slice(MovedBytes(data, dst, src, n), dst + offset, k) == Slice(data, src + offset, k)
  {
  }

  lemma MovedBytesElsewhere(data: seq<nat>, dst: nat, src: nat, n: nat, from: nat, k: nat)
    requires src + n <= |data| && (from + k <= dst || dst + n <= from)
    ensures Slice(MovedBytes(data, dst, src, n), from, k) == Slice(data, from, k)
  {
  }

  /** The other members and their contents are what they were. */
  ghost predicate OthersKept(size: map<nat, nat>, data: seq<nat>, sizeAfter: map<nat, nat>, dataAfter: seq<nat>,
                             header: nat, first: nat, a: nat) {
    forall m :: m in size && m != a ==>
      && m in sizeAfter && sizeAfter[m] == size[m]
      && Slice(dataAfter, m - first + header, size[m]) == Slice(data, m - first + header, size[m])
  }

  /** Member `a` is now `b` with `wanted` bytes, of which the first are what they were. */
  ghost predicate MovedInPool(size: map<nat, nat>, data: seq<nat>, sizeAfter: map<nat, nat>, dataAfter: seq<nat>,
                              header: nat, first: nat, a: nat, b: nat, wanted: nat) {
    && a in size && sizeAfter == (size - {a})[b := wanted] && (b == a || b !in size)
    && OthersKept(size, data, sizeAfter, dataAfter, header, first, a)
    && Slice(dataAfter, b - first + header, Min(size[a], wanted)) == Slice(data, a - first + header, Min(size[a], wanted))
  }

  lemma NewPlaceKeeps(size: map<nat, nat>, data: seq<nat>, sizeAfter: map<nat, nat>, dataAfter: seq<nat>,
                      header: nat, first: nat, end: nat, a: nat, b: nat, n: nat, wanted: nat)
    requires Laid(size, header, first, end) && a in size && b !in size && b == end
    requires a - first + header + n <= |data| && b - first + header + n <= |data| && first <= a && first <= b
    requires n == Min(size[a], wanted) && sizeAfter == size[b := wanted] - {a}
    requires dataAfter == MovedBytes(data, b - first, a - first, header + n)
    ensures MovedInPool(size, data, sizeAfter, dataAfter, header, first, a, b, wanted)
  {
    hide MovedBytes, Slice, Align16;
    RemoveThenAdd(size, a, b, wanted);
    MovedBytesCopy(data, b - first, a - first, header + n, header, n);
    forall m | m in size && m != a
      ensures Slice(dataAfter, m - first + header, size[m]) == Slice(data, m - first + header, size[m])
    {
      assert Fits(size, header, first, end, m);
      MovedBytesElsewhere(data, b - first, a - first, header + n, m - first + header, size[m]);
    }
  }

  /** A member that stays where it is. */
  lemma InPlace(size: map<nat, nat>, data: seq<nat>, header: nat, first: nat, a: nat, wanted: nat)
    requires a in size
    ensures MovedInPool(size, data, size[a := wanted], data, header, first, a, a, wanted)
  {
  }

  lemma SingleKey(size: map<nat, nat>, a: nat)
    requires |size| == 1 && a in size
    ensures size.Keys == {a}
  {
    assert |size.Keys - {a}| == |size.Keys| - 1 == 0;
    assert size.Keys - {a} == {};
  }

  /** The only member of a pool at its new place. */
  lemma AloneMoves(size: map<nat, nat>, data: seq<nat>, header: nat, first: nat, a: nat, wanted: nat)
    requires size.Keys == {a}
    ensures forall after: seq<nat> ::
              Slice(after, 0 + header, size[a]) == Slice(data, a - first + header, size[a]) && size[a] <= wanted ==>
              MovedInPool(size, data, map[first := wanted], after, header, first, a, first, wanted)
  {
    assert (size - {a})[first := wanted] == map[first := wanted];
  }

  lemma LastGrows(header: nat, end: nat, limit: nat, size: map<nat, nat>, a: nat, wanted: nat)
    requires a in size && size[a] < wanted && a + Align16(header + size[a]) == end && a % 16 == 0
    requires Align16(header + wanted) != Align16(header + size[a])
    requires limit - end >= Align16(header + wanted) - Align16(header + size[a])
    ensures CanGrow(size, header, end, limit, a, wanted, a + Align16(header + wanted))
  {
    AlignedAfter(a, header + wanted);
    AlignMonotone(header + size[a], header + wanted);
  }

  /** What talloc_realloc of `a` to `wanted` bytes promises. */
  ghost predicate Reallocated(size: map<nat, nat>, data: seq<nat>, sizeAfter: map<nat, nat>, dataAfter: seq<nat>,
                              header: nat, first: nat, a: nat, wanted: nat, r: Option<Moved>) {
    a in size &&
    match r
    case None => sizeAfter == size && dataAfter == data
    case Some(InPool(b)) => MovedInPool(size, data, sizeAfter, dataAfter, header, first, a, b, wanted)
    case Some(Malloced(contents)) =>
      && sizeAfter == size - {a} && dataAfter == data
      && contents == Slice(data, a - first + header, Min(size[a], wanted))
  }

  /** The member before the bump pointer. */
  ghost predicate IsLast(size: map<nat, nat>, header: nat, end: nat, a: nat)
    requires a in size
  {
    a + Space(size, header, a) == end
  }

  /**
   Where member `a` is with `wanted` bytes, and the bump pointer then, without malloc: in place when it
   gets smaller, at the start when it is the only one, in place when its padding or what lies behind it is
   enough, else behind the other members.
   */
  ghost predicate ServedByPool(size: map<nat, nat>, header: nat, first: nat, end: nat, limit: nat, a: nat, wanted: nat,
                               b: nat, end': nat)
    requires a in size
  {
    var space := Align16(header + wanted);
    if wanted <= size[a] then b == a && end' == if IsLast(size, header, end, a) then a + space else end
    else if size.Keys == {a} && first + space <= limit then b == first && end' == first + space
    else if space == Space(size, header, a) then b == a && end' == end
    else if size.Keys != {a} && IsLast(size, header, end, a) && a + space <= limit then b == a && end' == a + space
    else b == end && end' == end + space <= limit
  }

  /** Neither place nor padding nor the end of the pool is large enough. */
  ghost predicate PoolIsFull(size: map<nat, nat>, header: nat, first: nat, end: nat, limit: nat, a: nat, wanted: nat)
    requires a in size
  {
    var space := Align16(header + wanted);
    && wanted > size[a] && space != Space(size, header, a) && end + space > limit
    && (size.Keys == {a} ==> first + space > limit)
    && (size.Keys != {a} && IsLast(size, header, end, a) ==> a + space > limit)
  }

  /** What talloc_realloc gives: memory of the pool whenever there is some, and else what malloc gives. */
  ghost predicate ServedWell(size: map<nat, nat>, header: nat, first: nat, end: nat, limit: nat, a: nat, wanted: nat,
                             mallocWorks: bool, r: Option<Moved>, end': nat)
    requires a in size
  {
    if PoolIsFull(size, header, first, end, limit, a, wanted) then
      if mallocWorks then r.Some? && r.value.Malloced? else r == None && end' == end
    else r.Some? && r.value.InPool? && ServedByPool(size, header, first, end, limit, a, wanted, r.value.chunk, end')
  }

  /** The tail that the last of several members gave back is there for it to grow again, without malloc. */
  lemma ShrunkTailIsRegrown(size: map<nat, nat>, header: nat, first: nat, end: nat, limit: nat, a: nat, wanted: nat,
                            b: nat, between: nat, c: nat, after: nat)
    requires Laid(size, header, first, end) && end <= limit && a in size && size.Keys != {a} && wanted < size[a]
    requires IsLast(size, header, end, a) && ServedByPool(size, header, first, end, limit, a, wanted, b, between)
    ensures b == a && between <= end && !PoolIsFull(size[a := wanted], header, first, between, limit, a, size[a])
    ensures ServedByPool(size[a := wanted], header, first, between, limit, a, size[a], c, after) ==> c == a && after == end
  {
    AlignMonotone(header + wanted, header + size[a]);
    assert size[a := wanted].Keys == size.Keys;
  }

  class Pool {
    /** TC_HDR_SIZE, the address of the first chunk, and tc_pool_end. */
    const header: nat
    const first: nat
    const limit: nat
    /** The bytes from `first` to `limit`. */
    const bytes: array<nat>
    var end: nat
    var objectCount: nat
    /** TALLOC_FLAG_FREE of the pool itself. */
    var poolFreed: bool
    /** The pool's memory was given back. */
    var released: bool
    /** The `size` field of each live member, by the address of its chunk. */
    var size: map<nat, nat>

    ghost predicate Valid()
      reads this
    {
      && header % 16 == 0 && header > 0 && first % 16 == 0 && end % 16 == 0
      && first <= end <= limit && bytes.Length == limit - first
      && Laid(size, header, first, end)
      && objectCount == |size| + (if poolFreed then 0 else 1)
      && (released <==> poolFreed && size == map[])
    }

    /** talloc_pool; `used` is the size of the pool's own object, 0 for a plain pool. */
    constructor (hdr: nat, start: nat, used: nat, poolSize: nat)
      requires hdr % 16 == 0 && hdr > 0 && start % 16 == 0 && Align16(used) <= poolSize
      ensures Valid() && size == map[] && !poolFreed && !released && fresh(bytes)
      ensures first == start + hdr + Align16(used) && limit == start + hdr + poolSize && end == first
    {
      AlignedAfter(start + hdr, used);
      header := hdr;
      first := start + hdr + Align16(used);
      limit := start + hdr + poolSize;
      bytes := new nat[poolSize - Align16(used)];
      end := start + hdr + Align16(used);
      objectCount := 1;
      poolFreed, released := false, false;
      size := map[];
    }

    /** tc_alloc_pool: take the space at the bump pointer. */
    method Alloc(wanted: nat) returns (chunk: Option<nat>)
      requires Valid() && !released
      modifies this`end, this`objectCount, this`size
      ensures Valid()
      ensures chunk.None? <==> limit - old(end) < Align16(header + wanted)
      ensures chunk.None? ==> size == old(size) && end == old(end)
      ensures chunk.Some? ==> chunk.value == old(end) && chunk.value !in old(size)
      ensures chunk.Some? ==> size == old(size)[chunk.value := wanted]
      ensures chunk.Some? ==> end == old(end) + Align16(header + wanted)
    {
      var space := Align16(header + wanted);
      if limit - end < space {
        return None;
      }
      var a := end;
      LaidWithNew(size, header, first, end, wanted, end + space);
      end := end + space;
      size := size[a := wanted];
      objectCount := objectCount + 1;
      return Some(a);
    }

    /**
     _tc_free_poolmem: the bump pointer falls back to the first chunk when only the pool is left, and
     to the freed chunk when it was the last one in memory.
     */
    method FreeMember(a: nat)
      requires Valid() && a in size
      modifies this`end, this`objectCount, this`size, this`released
      ensures Valid() && size == old(size) - {a} && end <= old(end)
      ensures size == map[] && !poolFreed ==> end == first
      ensures old(end) == a + Space(old(size), header, a) && size != map[] ==> end == a
      ensures old(end) != a + Space(old(size), header, a) && (size != map[] || poolFreed) ==> end == old(end)
    {
      assert Fits(size, header, first, end, a);
      var next := a + Align16(header + size[a]);
      ghost var before := size;
      forall b | b in before && b != a
        ensures b + Space(before, header, b) <= end
        ensures next == end ==> b + Space(before, header, b) <= a
      {
        assert Fits(before, header, first, end, b);
        if next == end {
          LastMember(before, header, first, end, a, b);
        }
      }
      LaidWithout(before, header, first, end, a, end);
      CountWithout(before, a);
      size := size - {a};
      objectCount := objectCount - 1;
      if objectCount == 1 && !poolFreed {
        EmptyMap(size);
        end := first;
        return;
      }
      if objectCount == 0 {
        EmptyMap(size);
        released := true;
        return;
      }
      if end == next {
        LaidWithout(before, header, first, end, a, a);
        end := a;
      }
    }

    method Memmove(dst: nat, src: nat, n: nat)
      requires src + n <= bytes.Length && dst + n <= bytes.Length
      modifies bytes
      ensures bytes[..] == MovedBytes(old(bytes[..]), dst, src, n)
    {
      forall i | 0 <= i < n {
        bytes[dst + i] := bytes[src + i];
      }
    }

    /** Copy a header and the `n` bytes behind it. */
    method CopyMember(dst: nat, src: nat, n: nat)
      requires src + header + n <= bytes.Length && dst + header + n <= bytes.Length
      modifies bytes
      ensures bytes[..] == MovedBytes(old(bytes[..]), dst, src, header + n)
      ensures Slice(bytes[..], dst + header, n) == Slice(old(bytes[..]), src + header, n)
    {
      MovedBytesCopy(bytes[..], dst, src, header + n, header, n);
      Memmove(dst, src, header + n);
    }

    /** talloc_realloc to a smaller size. */
    method Shrink(a: nat, wanted: nat)
      requires Valid() && a in size && wanted < size[a]
      modifies this`end, this`size
      ensures Valid() && size == old(size)[a := wanted]
      ensures end == if IsLast(old(size), header, old(end), a) then a + Align16(header + wanted) else old(end)
    {
      assert Fits(size, header, first, end, a);
      var next := a + Align16(header + size[a]);
      var end' := if next == end then a + Align16(header + wanted) else end;
      AlignMonotone(header + wanted, header + size[a]);
      ShrinkStaysLaid(size, header, first, end, a, wanted, end');
      CountUpdate(size, a, wanted);
      size := size[a := wanted];
      end := end';
    }

    /** talloc_realloc that fits in the padding, or before the bump pointer can be moved. */
    method Grow(a: nat, wanted: nat, newEnd: nat)
      requires Valid() && CanGrow(size, header, end, limit, a, wanted, newEnd)
      modifies this`end, this`size
      ensures Valid() && size == old(size)[a := wanted] && end == newEnd
    {
      GrowStaysLaid(size, header, first, end, a, wanted, newEnd);
      CountUpdate(size, a, wanted);
      size := size[a := wanted];
      end := newEnd;
    }

    /** The member before the bump pointer takes space behind it. */
    method GrowLast(a: nat, wanted: nat, oldSpace: nat, newSpace: nat)
      requires Valid() && a in size && size[a] < wanted && a + oldSpace == end && limit - end + oldSpace >= newSpace
      requires oldSpace == Space(size, header, a) && newSpace == Align16(header + wanted) && newSpace != oldSpace
      modifies this`end, this`size
      ensures Valid() && size == old(size)[a := wanted] && end == a + newSpace
    {
      assert Fits(size, header, first, end, a);
      LastGrows(header, end, limit, size, a, wanted);
      Grow(a, wanted, a + newSpace);
    }

    /** talloc_realloc of the only member: it moves to the start of the pool. */
    method MoveToStart(a: nat, wanted: nat)
      requires Valid() && size.Keys == {a} && size[a] <= wanted && Align16(header + wanted) <= limit - first
      modifies this`end, this`size, bytes
      ensures Valid() && size == map[first := wanted] && end == first + Align16(header + wanted)
      ensures Slice(bytes[..], 0 + header, old(size[a])) == Slice(old(bytes[..]), a - first + header, old(size[a]))
    {
      hide MovedBytes, Slice, Align16;
      assert Fits(size, header, first, end, a);
      AlignMonotone(header + size[a], header + wanted);
      CopyMember(0, a - first, size[a]);
      var after: map<nat, nat> := map[first := wanted];
      OnlyMember(size, header, first, a, wanted, after);
      end := first + Align16(header + wanted);
      size := after;
    }

    /** talloc_realloc that needs other memory, from the pool or from malloc. */
    method MoveElsewhere(a: nat, wanted: nat, mallocWorks: bool) returns (r: Option<Moved>)
      requires Valid() && a in size
      modifies this`end, this`objectCount, this`size, this`released, bytes
      ensures Valid()
      ensures Reallocated(old(size), old(bytes[..]), size, bytes[..], header, first, a, wanted, r)
      ensures if limit - old(end) >= Align16(header + wanted)
              then r == Some(InPool(old(end))) && end == old(end) + Align16(header + wanted)
              else if mallocWorks then r.Some? && r.value.Malloced? else r == None && end == old(end)
    {
      ghost var before, data := size, bytes[..];
      var n := Min(size[a], wanted);
      assert Fits(size, header, first, end, a);
      var b := Alloc(wanted);
      if b.None? {
        if !mallocWorks {
          return None;
        }
        var contents := bytes[a - first + header..a - first + header + n];
        FreeMember(a);
        return Some(Malloced(contents));
      }
      assert Fits(size, header, first, end, b.value);
      MoveToNew(a, b.value, n, before, old(end), wanted);
      return Some(InPool(b.value));
    }

    method MoveToNew(a: nat, b: nat, n: nat, ghost before: map<nat, nat>, ghost oldEnd: nat, wanted: nat)
      requires Valid() && a in before && b !in before && size == before[b := wanted] && b == oldEnd
      requires Laid(before, header, first, oldEnd) && n == Min(before[a], wanted)
      requires a + Space(before, header, a) <= oldEnd < end
      requires first <= a && a - first + header + n <= bytes.Length
      requires first <= b && b - first + header + n <= bytes.Length
      modifies this`end, this`objectCount, this`size, this`released, bytes
      ensures Valid()
      ensures MovedInPool(before, old(bytes[..]), size, bytes[..], header, first, a, b, wanted) && end == old(end)
    {
      hide MovedBytes, Slice, Align16, MovedInPool;
      ghost var data := bytes[..];
      CopyMember(b - first, a - first, n);
      NewPlaceKeeps(before, data, size - {a}, bytes[..], header, first, oldEnd, a, b, n, wanted);
      FreeMember(a);
    }

    /**
     talloc_realloc inside a pool: the first min(old, wanted) bytes are kept wherever the member ends
     up, and no other member changes.
     */
    method Realloc(a: nat, wanted: nat, mallocWorks: bool) returns (r: Option<Moved>)
      requires Valid() && a in size
      modifies this`end, this`objectCount, this`size, this`released, bytes
      ensures Valid()
      ensures Reallocated(old(size), old(bytes[..]), size, bytes[..], header, first, a, wanted, r)
      ensures ServedWell(old(size), header, first, old(end), limit, a, wanted, mallocWorks, r, end)
    {
      hide Laid, MovedInPool;
      InPlace(size, bytes[..], header, first, a, wanted);
      if wanted < size[a] {
        Shrink(a, wanted);
        return Some(InPool(a));
      }
      if size[a] == wanted {
        assert size == size[a := wanted];
        return Some(InPool(a));
      }
      r := Enlarge(a, wanted, mallocWorks);
    }

    /** The part of talloc_realloc for more bytes than before. */
    method Enlarge(a: nat, wanted: nat, mallocWorks: bool) returns (r: Option<Moved>)
      requires Valid() && a in size && size[a] < wanted
      modifies this`end, this`objectCount, this`size, this`released, bytes
      ensures Valid()
      ensures Reallocated(old(size), old(bytes[..]), size, bytes[..], header, first, a, wanted, r)
      ensures ServedWell(old(size), header, first, old(end), limit, a, wanted, mallocWorks, r, end)
    {
      var count := if poolFreed then objectCount else objectCount - 1;
      assert count == |size| == |size.Keys|;
      if count == 1 {
        SingleKey(size, a);
        if limit - first >= Align16(header + wanted) {
          AloneMoves(size, bytes[..], header, first, a, wanted);
          MoveToStart(a, wanted);
          return Some(InPool(first));
        }
      }
      r := EnlargeAmong(a, wanted, mallocWorks, count != 1);
    }

    /** The cases in which other members stay where they are. */
    method EnlargeAmong(a: nat, wanted: nat, mallocWorks: bool, mayBeLast: bool) returns (r: Option<Moved>)
      requires Valid() && a in size && size[a] < wanted
      requires if mayBeLast then size.Keys != {a} else size.Keys == {a} && first + Align16(header + wanted) > limit
      modifies this`end, this`objectCount, this`size, this`released, bytes
      ensures Valid()
      ensures Reallocated(old(size), old(bytes[..]), size, bytes[..], header, first, a, wanted, r)
      ensures ServedWell(old(size), header, first, old(end), limit, a, wanted, mallocWorks, r, end)
    {
      var oldSpace, newSpace := Align16(header + size[a]), Align16(header + wanted);
      InPlace(size, bytes[..], header, first, a, wanted);
      if newSpace == oldSpace {
        Grow(a, wanted, end);
        r := Some(InPool(a));
      } else if mayBeLast && a + oldSpace == end && limit - end + oldSpace >= newSpace {
        GrowLast(a, wanted, oldSpace, newSpace);
        r := Some(InPool(a));
      } else {
        r := MoveElsewhere(a, wanted, mallocWorks);
      }
    }

    /** The end of _tc_free_internal on the pool itself. */
    method FreePool()
      requires Valid() && !poolFreed
      modifies this`poolFreed, this`objectCount, this`released
      ensures Valid() && poolFreed
    {
      poolFreed := true;
      objectCount := objectCount - 1;
      if objectCount == 0 {
        EmptyMap(size);
        released := true;
      }
    }
  }

  lemma CountWithout(m: map<nat, nat>, a: nat)
    requires a in m
    ensures |m - {a}| == |m| - 1
  {
    assert (m - {a}).Keys == m.Keys - {a};
    assert |m| == |m.Keys| && |m - {a}| == |(m - {a}).Keys|;
  }

  lemma CountUpdate(m: map<nat, nat>, a: nat, v: nat)
    requires a in m
    ensures |m[a := v]| == |m| && m[a := v] == (m - {a})[a := v]
  {
    assert m[a := v].Keys == m.Keys;
    assert |m| == |m.Keys| && |m[a := v]| == |m[a := v].Keys|;
  }

  lemma RemoveThenAdd(m: map<nat, nat>, a: nat, b: nat, v: nat)
    requires a != b
    ensures m[b := v] - {a} == (m - {a})[b := v]
  {
  }

  lemma EmptyMap(m: map<nat, nat>)
    requires |m| == 0
    ensures m == map[]
  {
    assert |m.Keys| == 0;
  }
}
