/**
 talloc/talloc.c on chunks with next, prev, parent, child and refs pointers.  Every operation leaves
 the pointers in agreement with the hierarchy that the corresponding function of ForestSteps,
 ForestFree or ForestHolders gives, so everything proved about these holds of the pointers.
 */
module Talloc {
  import opened Wrappers
  import opened Forests
  import opened ForestSteps
  import opened ForestFree
  import opened ForestHolders
  import opened ChunkLists

  function Pointer(o: Option<Chunk>): Chunk? {
    match o case None => null case Some(c) => c
  }

  ghost predicate Closed(lists: map<Chunk, seq<Chunk>>) {
    forall c, x {:trigger x in lists[c]} :: c in lists && x in lists[c] ==> x in lists
  }

  ghost predicate KidsCell(kids: map<Chunk, seq<Chunk>>, c: Chunk)
    requires Closed(kids) && c in kids
    reads kids.Keys`next, kids.Keys`prev, kids.Keys`parent, kids.Keys`child
  {
    assert forall x :: x in kids[c] ==> x in kids.Keys;
    Linked(kids[c], c.child) && FirstHasParent(kids[c], c)
  }

  ghost predicate KidsOk(kids: map<Chunk, seq<Chunk>>)
    requires Closed(kids)
    reads kids.Keys`next, kids.Keys`prev, kids.Keys`parent, kids.Keys`child
  {
    forall c {:trigger KidsCell(kids, c)} :: c in kids ==> KidsCell(kids, c)
  }

  /** A chunk without parent has no siblings; its parent pointer is null unless it is being freed. */
  ghost predicate RootCell(up: map<Chunk, Option<Chunk>>, loop: map<Chunk, Option<Chunk>>, c: Chunk)
    requires c in up
    reads c`next, c`prev, c`parent
  {
    up[c].None? ==> c.next == c.prev == null && c.parent == if c in loop then Pointer(loop[c]) else null
  }

  ghost predicate RootsOk(up: map<Chunk, Option<Chunk>>, loop: map<Chunk, Option<Chunk>>, but: set<Chunk>)
    reads up.Keys`next, up.Keys`prev, up.Keys`parent
  {
    forall c {:trigger RootCell(up, loop, c)} :: c in up && c !in but ==> RootCell(up, loop, c)
  }

  ghost predicate RefsOk(refs: map<Chunk, seq<Chunk>>)
    requires Closed(refs)
    reads refs.Keys`refs, refs.Keys`refNext, refs.Keys`refPrev
  {
    forall c {:trigger RefsCell(refs, c)} :: c in refs ==> RefsCell(refs, c)
  }

  ghost predicate RefsCell(refs: map<Chunk, seq<Chunk>>, c: Chunk)
    requires Closed(refs) && c in refs
    reads refs.Keys`refs, refs.Keys`refNext, refs.Keys`refPrev
  {
    assert forall x :: x in refs[c] ==> x in refs.Keys;
    RefLinked(refs[c], c.refs)
  }

  ghost predicate FlagsOk(target: map<Chunk, Option<Chunk>>, destructor: map<Chunk, Destructor>,
                          loop: map<Chunk, Option<Chunk>>)
    requires target.Keys == destructor.Keys
    reads target.Keys`target, target.Keys`destructor, target.Keys`loop
  {
    forall c :: c in target ==>
      c.target == Pointer(target[c]) && c.destructor == destructor[c] && (c.loop <==> c in loop)
  }

  /** The lists of siblings and the chunks without parent, but for the parent pointers of `but`. */
  ghost predicate TreeOk(up: map<Chunk, Option<Chunk>>, kids: map<Chunk, seq<Chunk>>,
                         loop: map<Chunk, Option<Chunk>>, but: set<Chunk>)
    reads up.Keys`next, up.Keys`prev, up.Keys`parent, up.Keys`child
  {
    ListsAgree(up, kids) && Closed(kids) && KidsOk(kids) && RootsOk(up, loop, but)
  }

  /** Take the i-th of the siblings `s` out of their list; its parent pointer stays. */
  method TakeOut(n: Chunk, ghost owner: Chunk?, ghost s: seq<Chunk>, ghost i: nat)
    requires NoDuplicates(s) && i < |s| && s[i] == n
    requires Linked(s, if owner == null then n else owner.child)
    requires FirstHasParent(s, owner)
    modifies s`next, s`prev, s`parent
    modifies (if owner == null then {} else {owner})`child
    ensures owner != null ==> Linked(Cut(s, i), owner.child) && FirstHasParent(Cut(s, i), owner)
    ensures n.next == n.prev == null && n.parent == old(n.parent)
  {
    assert n.parent == if i == 0 then owner else null;
    assert LinkedAt(s, i);
    if n.parent != null {
      var p := n.parent;
      p.child := ListRemove(p.child, n, s, i);
      if p.child != null {
        p.child.parent := p;
      }
    } else {
      Bypass(n, s, i);
    }
    ghost var r := Cut(s, i);
    assert forall k :: 0 <= k < |r| ==> r[k] == s[if k < i then k else k + 1];
  }

  /** The siblings of `n`, itself included. */
  ghost function SiblingsOf(up: map<Chunk, Option<Chunk>>, kids: map<Chunk, seq<Chunk>>, n: Chunk): (s: seq<Chunk>)
    requires ListsAgree(up, kids) && n in up
    ensures n in s && NoDuplicates(s)
    ensures forall x :: x in s ==> x in up && up[x] == up[n]
  {
    assert Listed(up, kids, n);
    if up[n].None? then [n]
    else
      assert NoDuplicates(kids[up[n].value]);
      kids[up[n].value]
  }

  /** The list of another chunk has no element in common with these siblings. */
  lemma OtherLists(up: map<Chunk, Option<Chunk>>, kids: map<Chunk, seq<Chunk>>, n: Chunk, c: Chunk)
    requires ListsAgree(up, kids) && n in up && c in kids && up[n] != Some(c)
    ensures forall x :: x in kids[c] ==> x !in SiblingsOf(up, kids, n)
  {
    forall x | x in kids[c]
      ensures x !in SiblingsOf(up, kids, n)
    {
      assert up[x] == Some(c);
    }
  }

  method Leave(n: Chunk, ghost up: map<Chunk, Option<Chunk>>, ghost kids: map<Chunk, seq<Chunk>>,
               ghost loop: map<Chunk, Option<Chunk>>,
               ghost upAfter: map<Chunk, Option<Chunk>>, ghost kidsAfter: map<Chunk, seq<Chunk>>)
    requires TreeOk(up, kids, loop, {}) && n in up && n !in loop
    requires upAfter == up[n := None] && ListsAgree(upAfter, kidsAfter) && Closed(kidsAfter)
    requires up[n].None? ==> kidsAfter == kids
    requires up[n].Some? ==> up[n].value in kids
    requires up[n].Some? ==> kidsAfter == kids[up[n].value := Without(kids[up[n].value], n)]
    modifies up.Keys`next, up.Keys`prev, up.Keys`parent, up.Keys`child
    ensures TreeOk(upAfter, kidsAfter, loop, {n})
    ensures n.next == n.prev == null && n.parent == old(n.parent)
  {
    hide Above;
    ghost var s := SiblingsOf(up, kids, n);
    ghost var i :| 0 <= i < |s| && s[i] == n;
    ghost var owner: Chunk? := Pointer(up[n]);
    if up[n].Some? {
      WithoutAt(s, i);
      assert KidsCell(kids, up[n].value);
    } else {
      assert RootCell(up, loop, n);
    }
    TakeOut(n, owner, s, i);
    forall c | c in kidsAfter
      ensures KidsCell(kidsAfter, c)
    {
      if up[n] != Some(c) {
        OtherLists(up, kids, n, c);
        assert old(KidsCell(kids, c));
        assert owner != c && c.child == old(c.child) && kidsAfter[c] == kids[c];
        assert forall k :: 0 <= k < |kids[c]| ==> kids[c][k] in kids[c];
        assert Linked(kids[c], c.child);
        assert FirstHasParent(kids[c], c);
      }
    }
    forall c | c in upAfter && c != n
      ensures RootCell(upAfter, loop, c)
    {
      assert old(RootCell(up, loop, c));
    }
  }

  /** Leave the siblings for the null context. */
  method LeaveForGood(n: Chunk, ghost up: map<Chunk, Option<Chunk>>, ghost kids: map<Chunk, seq<Chunk>>,
                      ghost loop: map<Chunk, Option<Chunk>>,
                      ghost upAfter: map<Chunk, Option<Chunk>>, ghost kidsAfter: map<Chunk, seq<Chunk>>)
    requires TreeOk(up, kids, loop, {}) && n in up && n !in loop
    requires upAfter == up[n := None] && ListsAgree(upAfter, kidsAfter) && Closed(kidsAfter)
    requires up[n].None? ==> kidsAfter == kids
    requires up[n].Some? ==> up[n].value in kids
    requires up[n].Some? ==> kidsAfter == kids[up[n].value := Without(kids[up[n].value], n)]
    modifies up.Keys`next, up.Keys`prev, up.Keys`parent, up.Keys`child
    ensures TreeOk(upAfter, kidsAfter, loop, {})
  {
    Leave(n, up, kids, loop, upAfter, kidsAfter);
    label Left:
    n.parent := null;
    forall c | c in kidsAfter
      ensures KidsCell(kidsAfter, c)
    {
      assert old@Left(KidsCell(kidsAfter, c));
      assert forall x :: x in kidsAfter[c] ==> upAfter[x] == Some(c) && x != n;
    }
    forall c | c in upAfter
      ensures RootCell(upAfter, loop, c)
    {
      assert c != n ==> old@Left(RootCell(upAfter, loop, c));
    }
  }

  /** Put `n` in front of the children `s` of `p`. */
  method PutFirst(n: Chunk, p: Chunk, ghost s: seq<Chunk>)
    requires NoDuplicates(s) && n !in s && Linked(s, p.child) && FirstHasParent(s, p)
    modifies s`prev, s`parent, n`next, n`prev, n`parent, p`child
    ensures Linked([n] + s, p.child) && FirstHasParent([n] + s, p)
  {
    n.parent := p;
    if p.child != null {
      p.child.parent := null;
    }
    p.child := ListAdd(p.child, n, s);
  }

  /** Become the first child of `p`. */
  method Enter(n: Chunk, p: Chunk, ghost up: map<Chunk, Option<Chunk>>, ghost kids: map<Chunk, seq<Chunk>>,
               ghost loop: map<Chunk, Option<Chunk>>,
               ghost upAfter: map<Chunk, Option<Chunk>>, ghost kidsAfter: map<Chunk, seq<Chunk>>)
    requires TreeOk(up, kids, loop, {n}) && n in up && up[n].None? && n !in loop && p in kids && p != n
    requires upAfter == up[n := Some(p)] && kidsAfter == kids[p := [n] + kids[p]]
    requires ListsAgree(upAfter, kidsAfter) && Closed(kidsAfter)
    modifies up.Keys`next, up.Keys`prev, up.Keys`parent, up.Keys`child
    ensures TreeOk(upAfter, kidsAfter, loop, {})
  {
    ghost var s := kids[p];
    assert KidsCell(kids, p) && NoDuplicates(s);
    assert forall x :: x in s ==> x in up && up[x] == Some(p);
    PutFirst(n, p, s);
    forall c | c in kidsAfter
      ensures KidsCell(kidsAfter, c)
    {
      if c != p {
        assert old(KidsCell(kids, c));
        assert forall x :: x in kids[c] ==> up[x] == Some(c);
        assert forall k :: 0 <= k < |kids[c]| ==> kids[c][k] in kids[c];
        assert Linked(kids[c], c.child);
        assert FirstHasParent(kids[c], c);
      }
    }
    forall c | c in upAfter
      ensures RootCell(upAfter, loop, c)
    {
      if c != n {
        assert old(RootCell(up, loop, c));
      }
    }
  }

  /** The parent of a chunk, or the kept one. */
  ghost function ParentOf(F: Forest<Chunk>, n: Chunk): Option<Chunk>
    requires n in F.up
  {
    if n in F.loop then F.loop[n] else F.up[n]
  }

  /** The reference lists and flags agree. */
  ghost predicate RestOk(F: Forest<Chunk>)
    reads F.refs.Keys`refs, F.refs.Keys`refNext, F.refs.Keys`refPrev
    reads F.target.Keys`target, F.target.Keys`destructor, F.target.Keys`loop
  {
    && F.refs.Keys == F.target.Keys == F.destructor.Keys == F.up.Keys
    && Closed(F.refs) && RefsOk(F.refs) && FlagsOk(F.target, F.destructor, F.loop)
  }

  /** The pointers agree with the hierarchy. */
  ghost predicate Points(F: Forest<Chunk>)
    reads F.up.Keys
  {
    && F.refs.Keys == F.up.Keys && F.target.Keys == F.up.Keys
    && TreeOk(F.up, F.kids, F.loop, {}) && RestOk(F)
  }

  /** talloc_parent_chunk: go back to the first sibling, which knows. */
  method ParentChunk(n: Chunk, ghost F: Forest<Chunk>) returns (p: Chunk?)
    requires Points(F) && n in F.up && LoopAgrees(F)
    ensures p == Pointer(ParentOf(F, n))
  {
    ghost var s := SiblingsOf(F.up, F.kids, n);
    ghost var i :| 0 <= i < |s| && s[i] == n;
    ghost var owner := Pointer(ParentOf(F, n));
    assert n in F.loop ==> BeingFreed(F, n);
    assert RootCell(F.up, F.loop, n);
    assert F.up[n].Some? ==> Listed(F.up, F.kids, n) && KidsCell(F.kids, F.up[n].value);
    var tc := n;
    while tc.prev != null
      invariant 0 <= i < |s| && s[i] == tc
      invariant Linked(s, s[0]) && FirstHasParent(s, owner)
      decreases i
    {
      assert LinkedAt(s, i);
      tc := tc.prev;
      i := i - 1;
    }
    assert LinkedAt(s, i);
    p := tc.parent;
  }

  /** D is F with `n` detached. */
  ghost predicate IsDetached(F: Forest<Chunk>, n: Chunk, D: Forest<Chunk>) {
    && n in F.up && D.up == F.up[n := None] && ListsAgree(D.up, D.kids) && Closed(D.kids)
    && (F.up[n].None? ==> D.kids == F.kids)
    && (F.up[n].Some? ==>
          F.up[n].value in F.kids && D.kids == F.kids[F.up[n].value := Without(F.kids[F.up[n].value], n)])
    && D.loop == F.loop && D.refs == F.refs && D.target == F.target && D.destructor == F.destructor
  }

  /** The new parent is the null context. */
  method MakeRoot(n: Chunk, ghost F: Forest<Chunk>, ghost D: Forest<Chunk>)
    requires Points(F) && n !in F.loop && IsDetached(F, n, D)
    modifies F.up.Keys`next, F.up.Keys`prev, F.up.Keys`parent, F.up.Keys`child
    ensures Points(D)
  {
    LeaveForGood(n, F.up, F.kids, F.loop, D.up, D.kids);
  }

  /** G is D with `n` as the first child of `p`. */
  ghost predicate IsAttached(D: Forest<Chunk>, n: Chunk, p: Chunk, G: Forest<Chunk>) {
    && n in D.up && D.up[n].None? && p in D.kids && p != n
    && G.up == D.up[n := Some(p)] && G.kids == D.kids[p := [n] + D.kids[p]]
    && ListsAgree(G.up, G.kids) && Closed(G.kids)
    && G.loop == D.loop && G.refs == D.refs && G.target == D.target && G.destructor == D.destructor
  }

  method Leaving(n: Chunk, ghost F: Forest<Chunk>, ghost D: Forest<Chunk>)
    requires TreeOk(F.up, F.kids, F.loop, {}) && RestOk(F) && n !in F.loop && IsDetached(F, n, D)
    modifies F.up.Keys`next, F.up.Keys`prev, F.up.Keys`parent, F.up.Keys`child
    ensures TreeOk(D.up, D.kids, D.loop, {n}) && RestOk(D)
    ensures n.next == n.prev == null && n.parent == old(n.parent)
  {
    Leave(n, F.up, F.kids, F.loop, D.up, D.kids);
    assert RestOk(F);
  }

  method Entering(n: Chunk, p: Chunk, ghost D: Forest<Chunk>, ghost G: Forest<Chunk>)
    requires TreeOk(D.up, D.kids, D.loop, {n}) && RestOk(D) && n !in D.loop && IsAttached(D, n, p, G)
    modifies D.up.Keys`next, D.up.Keys`prev, D.up.Keys`parent, D.up.Keys`child
    ensures TreeOk(G.up, G.kids, G.loop, {}) && RestOk(G)
  {
    Enter(n, p, D.up, D.kids, D.loop, G.up, G.kids);
    assert RestOk(D);
  }

  /** The new parent is `p`. */
  method Rehang(n: Chunk, p: Chunk, ghost F: Forest<Chunk>, ghost D: Forest<Chunk>, ghost G: Forest<Chunk>)
    requires Points(F) && n !in F.loop && IsDetached(F, n, D) && IsAttached(D, n, p, G)
    modifies F.up.Keys`next, F.up.Keys`prev, F.up.Keys`parent, F.up.Keys`child
    ensures Points(G)
  {
    Leaving(n, F, D);
    Entering(n, p, D, G);
  }
}
