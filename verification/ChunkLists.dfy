/**
 The chunks of talloc/talloc.c and the intrusive lists they are in (:543-566): the siblings below
 one parent, and the reference handles of one chunk.
 */
module ChunkLists {
  import opened Wrappers
  import opened Forests

  /** struct talloc_chunk; the last three fields are those of a struct talloc_reference_handle. */
  class Chunk {
    var next: Chunk?
    var prev: Chunk?
    var parent: Chunk?
    var child: Chunk?
    var refs: Chunk?
    var destructor: Destructor
    var loop: bool
    var refNext: Chunk?
    var refPrev: Chunk?
    var target: Chunk?

    constructor (d: Destructor)
      ensures next == prev == parent == child == refs == refNext == refPrev == target == null
      ensures destructor == d && !loop
    {
      next, prev, parent, child, refs := null, null, null, null, null;
      refNext, refPrev, target := null, null, null;
      destructor, loop := d, false;
    }
  }

  function At(s: seq<Chunk>, i: int): Chunk? {
    if 0 <= i < |s| then s[i] else null
  }

  /** `s` is linked both ways from `head`. */
  ghost predicate Linked(s: seq<Chunk>, head: Chunk?)
    reads s`next, s`prev
  {
    head == At(s, 0) && forall i {:trigger LinkedAt(s, i)} :: 0 <= i < |s| ==> LinkedAt(s, i)
  }

  ghost predicate LinkedAt(s: seq<Chunk>, i: nat)
    requires i < |s|
    reads s`next, s`prev
  {
    s[i].next == At(s, i + 1) && s[i].prev == At(s, i - 1)
  }

  /** Exactly the first of the siblings has the parent pointer. */
  ghost predicate FirstHasParent(s: seq<Chunk>, parent: Chunk?)
    reads s`parent
  {
    forall i {:trigger s[i]} :: 0 <= i < |s| ==> s[i].parent == if i == 0 then parent else null
  }

  /** `refs` is linked both ways from `head` through the handles. */
  ghost predicate RefLinked(s: seq<Chunk>, head: Chunk?)
    reads s`refNext, s`refPrev
  {
    head == At(s, 0) && forall i {:trigger RefLinkedAt(s, i)} :: 0 <= i < |s| ==> RefLinkedAt(s, i)
  }

  ghost predicate RefLinkedAt(s: seq<Chunk>, i: nat)
    requires i < |s|
    reads s`refNext, s`refPrev
  {
    s[i].refNext == At(s, i + 1) && s[i].refPrev == At(s, i - 1)
  }

  ghost function Cut(s: seq<Chunk>, i: nat): seq<Chunk>
    requires i < |s|
  {
    s[..i] + s[i + 1..]
  }

  /** Let the neighbours of `p` bypass it, the code for a chunk that is not the first sibling. */
  method Bypass(p: Chunk, ghost s: seq<Chunk>, ghost i: nat)
    requires NoDuplicates(s) && i < |s| && s[i] == p && Linked(s, At(s, 0))
    modifies s`next, s`prev
    ensures Linked(Cut(s, i), At(Cut(s, i), 0)) && p.next == p.prev == null
  {
    assert LinkedAt(s, i);
    assert i > 0 ==> LinkedAt(s, i - 1);
    assert i + 1 < |s| ==> LinkedAt(s, i + 1);
    if p.prev != null {
      p.prev.next := p.next;
    }
    if p.next != null {
      p.next.prev := p.prev;
    }
    p.next, p.prev := null, null;
    ghost var r := Cut(s, i);
    forall k | 0 <= k < |r|
      ensures LinkedAt(r, k)
    {
      assert r[k] == s[if k < i then k else k + 1];
      assert old(LinkedAt(s, if k < i then k else k + 1));
    }
  }

  /** _TLIST_REMOVE on a list of siblings. */
  method ListRemove(list: Chunk, p: Chunk, ghost s: seq<Chunk>, ghost i: nat) returns (head: Chunk?)
    requires NoDuplicates(s) && i < |s| && s[i] == p && Linked(s, list)
    modifies s`next, s`prev
    ensures Linked(Cut(s, i), head) && p.next == p.prev == null
  {
    assert LinkedAt(s, i);
    assert i > 0 ==> LinkedAt(s, i - 1);
    assert i + 1 < |s| ==> LinkedAt(s, i + 1);
    head := list;
    if p == list {
      head := p.next;
      if head != null {
        head.prev := null;
      }
    } else {
      if p.prev != null {
        p.prev.next := p.next;
      }
      if p.next != null {
        p.next.prev := p.prev;
      }
    }
    if p != head {
      p.next, p.prev := null, null;
    }
    ghost var r := Cut(s, i);
    forall k | 0 <= k < |r|
      ensures LinkedAt(r, k)
    {
      assert r[k] == s[if k < i then k else k + 1];
      assert old(LinkedAt(s, if k < i then k else k + 1));
    }
  }

  /** _TLIST_ADD on a list of siblings. */
  method ListAdd(list: Chunk?, p: Chunk, ghost s: seq<Chunk>) returns (head: Chunk)
    requires NoDuplicates(s) && p !in s && Linked(s, list)
    modifies s`prev, p`next, p`prev
    ensures head == p && Linked([p] + s, p)
  {
    if list == null {
      p.next, p.prev := null, null;
    } else {
      list.prev := p;
      p.next := list;
      p.prev := null;
    }
    head := p;
    ghost var r := [p] + s;
    forall k | 0 <= k < |r|
      ensures LinkedAt(r, k)
    {
      assert k > 0 ==> r[k] == s[k - 1] && old(LinkedAt(s, k - 1));
    }
  }

  // ----- The same on reference handles -----

  method RefListRemove(list: Chunk, p: Chunk, ghost s: seq<Chunk>, ghost i: nat) returns (head: Chunk?)
    requires NoDuplicates(s) && i < |s| && s[i] == p && RefLinked(s, list)
    modifies s`refNext, s`refPrev
    ensures RefLinked(Cut(s, i), head) && p.refNext == p.refPrev == null
  {
    assert RefLinkedAt(s, i);
    assert i > 0 ==> RefLinkedAt(s, i - 1);
    assert i + 1 < |s| ==> RefLinkedAt(s, i + 1);
    head := list;
    if p == list {
      head := p.refNext;
      if head != null {
        head.refPrev := null;
      }
    } else {
      if p.refPrev != null {
        p.refPrev.refNext := p.refNext;
      }
      if p.refNext != null {
        p.refNext.refPrev := p.refPrev;
      }
    }
    if p != head {
      p.refNext, p.refPrev := null, null;
    }
    ghost var r := Cut(s, i);
    forall k | 0 <= k < |r|
      ensures RefLinkedAt(r, k)
    {
      assert r[k] == s[if k < i then k else k + 1];
      assert old(RefLinkedAt(s, if k < i then k else k + 1));
    }
  }

  method RefListAdd(list: Chunk?, p: Chunk, ghost s: seq<Chunk>) returns (head: Chunk)
    requires NoDuplicates(s) && p !in s && RefLinked(s, list)
    modifies s`refPrev, p`refNext, p`refPrev
    ensures head == p && RefLinked([p] + s, p)
  {
    if list == null {
      p.refNext, p.refPrev := null, null;
    } else {
      list.refPrev := p;
      p.refNext := list;
      p.refPrev := null;
    }
    head := p;
    ghost var r := [p] + s;
    forall k | 0 <= k < |r|
      ensures RefLinkedAt(r, k)
    {
      assert k > 0 ==> r[k] == s[k - 1] && old(RefLinkedAt(s, k - 1));
    }
  }
}
