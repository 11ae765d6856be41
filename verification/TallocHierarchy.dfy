/**
 The operations of talloc/talloc.c on chunks (:739-819, 1001-1021, 1110-1224, 1260-1490, 1653-1684).
 Each is proved to do to the pointers what a function of ForestSteps, ForestFree, ForestHolders or
 ForestRuns does to the hierarchy `F` that they represent.
 */
module TallocHierarchy {
  import opened Wrappers
  import opened Forests
  import S = ForestSteps
  import opened ForestFree
  import opened ForestHolders
  import opened ForestRuns
  import opened ChunkLists
  import opened Talloc

  function Maybe(p: Chunk?): Option<Chunk> {
    if p == null then None else Some(p)
  }

  // ----- Moving -----

  lemma DetachFields(F: Forest<Chunk>, n: Chunk)
    requires WellFormed(F) && n in F.up
    ensures IsDetached(F, n, S.Detach(F, n))
  {
    S.ListsAgreeDetach(F, n);
    assert Listed(F.up, F.kids, n);
  }

  lemma AttachFields(D: Forest<Chunk>, n: Chunk, p: Chunk, G: Forest<Chunk>)
    requires n in D.up && D.up[n].None? && p in D.kids && p != n && G == S.Attach(D, n, p) && WellFormed(G)
    ensures IsAttached(D, n, p, G)
  {
  }

  lemma ParentPointer(F: Forest<Chunk>, n: Chunk)
    requires WellFormed(F) && Points(F) && n in F.up
    ensures n.parent == Pointer(S.ParentField(F, n))
  {
    assert RootCell(F.up, F.loop, n);
    assert Listed(F.up, F.kids, n);
    if F.up[n].Some? {
      assert n in F.loop ==> BeingFreed(F, n);
      var s := F.kids[F.up[n].value];
      assert KidsCell(F.kids, F.up[n].value) && NoDuplicates(s);
      var i :| 0 <= i < |s| && s[i] == n;
    }
  }

  /** _talloc_steal_internal. */
  method Steal(p: Chunk?, n: Chunk, ghost F: Forest<Chunk>)
    requires WellFormed(F) && Points(F) && n in F.up && n !in F.loop && (p != null ==> p in F.up)
    requires WellFormed(S.Steal(F, n, Maybe(p)))
    modifies F.up.Keys`next, F.up.Keys`prev, F.up.Keys`parent, F.up.Keys`child
    ensures Points(S.Steal(F, n, Maybe(p)))
  {
    ParentPointer(F, n);
    DetachFields(F, n);
    if p == null {
      MakeRoot(n, F, S.Detach(F, n));
    } else if n == p || n.parent == p {
    } else {
      var q: Chunk := p;
      ghost var D := S.Detach(F, n);
      AttachFields(D, n, q, S.Attach(D, n, q));
      Rehang(n, q, F, D, S.Attach(D, n, q));
    }
  }

  // ----- Looking upwards -----

  /** Whether kept parents count or not, `a` is found above `n` at the same depth. */
  lemma SeenKept(F: Forest<Chunk>, a: Chunk, n: Chunk)
    requires LoopAgrees(F) && S.Clear(F, a) && a in F.up && a !in F.loop
    ensures Seen(Parents(F.up, F.loop), a, n) <==> Seen(F.up, a, n)
  {
    var parents := Parents(F.up, F.loop);
    if k: nat :| k < MAX_DEPTH && Up(F.up, n, k) == Some(a) {
      S.KeptLeadNowhere(F, a, n, k);
    }
    if k: nat :| k < MAX_DEPTH && Up(parents, n, k) == Some(a) {
      S.KeptLeadNowhere(F, a, n, k);
    }
  }

  /** talloc_is_parent: the walk gives up at its depth, also on a cycle. */
  method IsParent(context: Chunk, ptr: Chunk, ghost F: Forest<Chunk>) returns (r: bool)
    requires WellFormed(F) && Points(F) && context in F.up
    ensures r <==> Seen(Parents(F.up, F.loop), ptr, context)
  {
    ghost var parents: map<Chunk, Option<Chunk>> := Parents(F.up, F.loop);
    S.ParentsLiveToo(F);
    ghost var k: nat := 0;
    var tc: Chunk?, depth := context, MAX_DEPTH;
    while tc != null
      invariant depth == MAX_DEPTH - k && 0 <= depth
      invariant tc != null ==> tc in F.up && Up(parents, context, k) == Some(tc)
      invariant tc == null ==> Up(parents, context, k) == None
      invariant forall j: nat :: j < k ==> Up(parents, context, j) != Some(ptr)
      decreases depth, tc != null
    {
      if depth <= 0 {
        return false;
      }
      if tc == ptr {
        return true;
      }
      ghost var here: Chunk := tc;
      assert ParentLives(parents, here);
      UpAdd(parents, context, k, 1);
      assert Up(parents, here, 1) == parents[here];
      tc := ParentChunk(tc, F);
      depth := depth - 1;
      k := k + 1;
    }
    forall j: nat
      ensures Up(parents, context, j) != Some(ptr)
    {
      if j >= k {
        EndsLater(parents, context, k, j);
      }
    }
    return false;
  }

  // ----- References -----

  /** The lists of references before and after `h` left that of `t`. */
  ghost predicate IsDropped(target: map<Chunk, Option<Chunk>>, refs: map<Chunk, seq<Chunk>>, h: Chunk, t: Chunk,
                            refsAfter: map<Chunk, seq<Chunk>>) {
    && ListsAgree(target, refs) && t in refs && h in refs[t] && NoDuplicates(refs[t])
    && refsAfter == refs[t := Without(refs[t], h)] && Closed(refsAfter) && Closed(refs)
  }

  /** References of different chunks are different. */
  lemma OtherReferences(target: map<Chunk, Option<Chunk>>, refs: map<Chunk, seq<Chunk>>, t: Chunk, c: Chunk)
    requires ListsAgree(target, refs) && t in refs && c in refs && c != t
    ensures forall x :: x in refs[c] ==> x !in refs[t]
  {
    forall x | x in refs[c]
      ensures x !in refs[t]
    {
      assert target[x] == Some(c);
    }
  }

  /** The list operation of talloc_reference_destructor. */
  method Unrefer(h: Chunk, t: Chunk, ghost target: map<Chunk, Option<Chunk>>, ghost refs: map<Chunk, seq<Chunk>>,
                 ghost refsAfter: map<Chunk, seq<Chunk>>)
    requires IsDropped(target, refs, h, t, refsAfter) && RefsOk(refs)
    modifies refs.Keys`refs, refs.Keys`refNext, refs.Keys`refPrev
    ensures RefsOk(refsAfter)
  {
    ghost var s := refs[t];
    ghost var i :| 0 <= i < |s| && s[i] == h;
    WithoutAt(s, i);
    assert RefsCell(refs, t);
    assert forall x :: x in s ==> x in refs;
    var first: Chunk := t.refs;
    t.refs := RefListRemove(first, h, s, i);
    forall c | c in refsAfter
      ensures RefsCell(refsAfter, c)
    {
      if c != t {
        OtherReferences(target, refs, t, c);
        assert old(RefsCell(refs, c));
        assert c.refs == old(c.refs) && refsAfter[c] == refs[c];
        assert forall k :: 0 <= k < |refs[c]| ==> refs[c][k] in refs[c];
        assert RefLinked(refs[c], c.refs);
      }
    }
  }

  lemma UnciteFields(F: Forest<Chunk>, h: Chunk, t: Chunk)
    requires WellFormed(F) && h in F.target && F.target[h] == Some(t)
    ensures t in F.refs && WellFormed(S.Uncite(F, h))
    ensures IsDropped(F.target, F.refs, h, t, S.Uncite(F, h).refs)
  {
    assert Listed(F.target, F.refs, h);
    assert NoDuplicates(F.refs[t]);
    S.UnciteKeeps(F, h);
  }

  /** U is F without the reference `h`. */
  ghost predicate IsUncited(F: Forest<Chunk>, h: Chunk, t: Chunk, U: Forest<Chunk>) {
    && h in F.target && IsDropped(F.target, F.refs, h, t, U.refs)
    && U.target == F.target[h := None] && U.destructor == F.destructor && U.loop == F.loop
    && U.up == F.up && U.kids == F.kids
  }

  method ForgetTarget(h: Chunk, t: Chunk, ghost F: Forest<Chunk>, ghost U: Forest<Chunk>)
    requires RestOk(F) && IsUncited(F, h, t, U)
    modifies F.up.Keys`refs, F.up.Keys`refNext, F.up.Keys`refPrev, h`target
    ensures RestOk(U)
  {
    Unrefer(h, t, F.target, F.refs, U.refs);
    h.target := null;
  }

  /** talloc_reference_destructor. */
  method ReferenceDestructor(h: Chunk, ghost F: Forest<Chunk>)
    requires WellFormed(F) && Points(F) && h in F.target && F.target[h].Some?
    modifies F.up.Keys`refs, F.up.Keys`refNext, F.up.Keys`refPrev, h`target
    ensures F.target[h].value in F.refs && Points(S.Uncite(F, h))
  {
    hide TreeOk;
    var t: Chunk := h.target;
    UnciteFields(F, h, t);
    ForgetTarget(h, t, F, S.Uncite(F, h));
    assert TreeOk(F.up, F.kids, F.loop, {});
  }

  // ----- Releasing -----

  /** R is D without the childless root `n`. */
  ghost predicate IsReleased(D: Forest<Chunk>, n: Chunk, R: Forest<Chunk>) {
    && n in D.up && D.up[n].None? && R == S.Release(D, n)
    && ListsAgree(R.up, R.kids) && Closed(R.kids) && Closed(R.refs)
    && D.refs.Keys == D.target.Keys == D.destructor.Keys == D.up.Keys == D.kids.Keys
  }

  lemma ReleasedTree(D: Forest<Chunk>, n: Chunk, R: Forest<Chunk>)
    requires IsReleased(D, n, R) && TreeOk(D.up, D.kids, D.loop, {n})
    ensures TreeOk(R.up, R.kids, R.loop, {})
  {
    forall c | c in R.kids
      ensures KidsCell(R.kids, c)
    {
      assert KidsCell(D.kids, c);
    }
    forall c | c in R.up
      ensures RootCell(R.up, R.loop, c)
    {
      assert RootCell(D.up, D.loop, c);
    }
  }

  lemma ReleasedRest(D: Forest<Chunk>, n: Chunk, R: Forest<Chunk>)
    requires IsReleased(D, n, R) && RestOk(D)
    ensures RestOk(R)
  {
    forall c | c in R.refs
      ensures RefsCell(R.refs, c)
    {
      assert RefsCell(D.refs, c);
    }
  }

  lemma ReleaseFields(D: Forest<Chunk>, n: Chunk)
    requires WellFormed(D) && WellFormed(S.Release(D, n)) && n in D.up && D.up[n].None?
    ensures IsReleased(D, n, S.Release(D, n))
  {
  }

  /** _tc_free_internal on a reference handle. */
  method FreeReference(h: Chunk, ghost F: Forest<Chunk>)
    requires WellFormed(F) && Points(F) && h in F.target && F.target[h].Some?
    modifies F.up.Keys
    ensures Points(S.FreeHandle(F, h))
  {
    ReferenceDestructor(h, F);
    ghost var U := S.Uncite(F, h);
    S.UnciteKeeps(F, h);
    assert HandleIsLeaf(F, h);
    DetachFields(U, h);
    ghost var D := S.Detach(U, h);
    Leaving(h, U, D);
    S.FreeHandleKeeps(F, h);
    HandleReleased(F, h, D);
    ReleasedTree(D, h, S.Release(D, h));
    ReleasedRest(D, h, S.Release(D, h));
  }

  lemma HandleReleased(F: Forest<Chunk>, h: Chunk, D: Forest<Chunk>)
    requires WellFormed(F) && h in F.target && F.target[h].Some? && F.target[h].value in F.refs
    requires WellFormed(S.FreeHandle(F, h)) && h in F.up && h !in F.loop
    requires WellFormed(S.Uncite(F, h)) && IsDetached(S.Uncite(F, h), h, D) && D == S.Detach(S.Uncite(F, h), h)
    ensures IsReleased(D, h, S.Release(D, h))
  {
  }

  /** A chunk leaves its parent and is marked against free loops. */
  method BeginFree(n: Chunk, ghost F: Forest<Chunk>)
    requires WellFormed(F) && Points(F) && n in F.up && n !in F.loop
    modifies F.up.Keys`next, F.up.Keys`prev, F.up.Keys`parent, F.up.Keys`child, n`loop
    ensures Points(S.Begin(F, n))
  {
    ParentPointer(F, n);
    DetachFields(F, n);
    ghost var D := S.Detach(F, n);
    Leaving(n, F, D);
    MarkLoop(n, D, S.Begin(F, n), S.ParentField(F, n));
  }

  method MarkLoop(n: Chunk, ghost D: Forest<Chunk>, ghost B: Forest<Chunk>, ghost kept: Option<Chunk>)
    requires TreeOk(D.up, D.kids, D.loop, {n}) && RestOk(D) && n in D.up
    requires n.next == n.prev == null && n.parent == Pointer(kept)
    requires B == D.(loop := D.loop[n := kept])
    modifies n`loop
    ensures Points(B)
  {
    n.loop := true;
    forall c | c in B.up
      ensures RootCell(B.up, B.loop, c)
    {
      assert c != n ==> RootCell(D.up, D.loop, c);
    }
    forall c | c in B.refs
      ensures RefsCell(B.refs, c)
    {
      assert old(RefsCell(D.refs, c));
    }
  }

  // ----- Freeing -----

  /** The destructors that were called. */
  class Trace {
    var ran: seq<Chunk>

    constructor ()
      ensures ran == []
    {
      ran := [];
    }
  }

  ghost predicate CanFreeAny(F: Forest<Chunk>, n: Chunk) {
    WellFormed(F) && n in F.up && n in F.target && (F.target[n].None? ==> CanFree(F, n))
  }

  lemma HandleShrinks(F: Forest<Chunk>, h: Chunk)
    requires WellFormed(F) && h in F.target && F.target[h].Some?
    ensures WellFormed(S.FreeHandle(F, h)) && S.FreeHandle(F, h).up.Keys <= F.up.Keys
    ensures Live(S.FreeHandle(F, h)) <= Live(F)
  {
    hide WellFormed, S.FreeHandle;
    FreeHandleSettles(F, h, {});
  }

  lemma FreeShrinks(F: Forest<Chunk>, n: Chunk)
    requires CanFree(F, n)
    ensures var r := Free(F, n); WellFormed(r.after) && r.after.up.Keys <= F.up.Keys && Live(r.after) <= Live(F)
  {
    hide Free, WellFormed, CanFree, Live;
    FreedShrinks(F, n, Free(F, n).after, Free(F, n).ok);
  }

  lemma FreedShrinks(F: Forest<Chunk>, n: Chunk, G: Forest<Chunk>, ok: bool)
    requires Freed(F, n, G, ok)
    ensures WellFormed(G) && G.up.Keys <= F.up.Keys && Live(G) <= Live(F)
  {
    hide WellFormed, Undisputed, Stripped;
  }

  /** Freeing a chunk or a reference handle. */
  ghost function FreeAny(F: Forest<Chunk>, n: Chunk): (r: Outcome<Chunk>)
    requires CanFreeAny(F, n)
    ensures WellFormed(r.after) && r.after.up.Keys <= F.up.Keys && Live(r.after) <= Live(F)
  {
    if F.target[n].Some? then
      HandleShrinks(F, n);
      Done(S.FreeHandle(F, n), true, [])
    else
      FreeShrinks(F, n);
      Free(F, n)
  }

  /** The pointers and the trace after a step. */
  ghost predicate Now(F: Forest<Chunk>, trace: Trace)
    reads F.up.Keys, trace
  {
    Points(F) && trace.ran == F.ran
  }

  /** The first of the references of a chunk. */
  lemma RefsPointer(F: Forest<Chunk>, n: Chunk)
    requires WellFormed(F) && Points(F) && n in F.up
    ensures n.refs == At(F.refs[n], 0) && n.child == At(F.kids[n], 0)
    ensures n.target == Pointer(F.target[n]) && n.destructor == F.destructor[n]
  {
    assert RefsCell(F.refs, n) && KidsCell(F.kids, n);
  }

  /** _tc_free_internal.  Only the destructor tells a reference handle from other chunks. */
  method FreeInternal(n: Chunk, trace: Trace, ghost F: Forest<Chunk>) returns (ok: bool)
    requires CanFreeAny(F, n) && Now(F, trace)
    modifies F.up.Keys, trace
    ensures ok == FreeAny(F, n).ok && Now(FreeAny(F, n).after, trace)
    decreases Live(F), if F.target[n].Some? then 0 else 2
  {
    RefsPointer(F, n);
    if n.target != null {
      FreeReferenceTraced(n, trace, F);
      ok := true;
    } else {
      ok := FreeProper(n, trace, F);
    }
  }

  method FreeReferenceTraced(h: Chunk, trace: Trace, ghost F: Forest<Chunk>)
    requires WellFormed(F) && Now(F, trace) && h in F.target && F.target[h].Some?
    modifies F.up.Keys
    ensures Now(S.FreeHandle(F, h), trace)
  {
    HandleGone(F, h);
    FreeReference(h, F);
  }

  method FreeProper(n: Chunk, trace: Trace, ghost F: Forest<Chunk>) returns (ok: bool)
    requires CanFree(F, n) && Now(F, trace)
    modifies F.up.Keys, trace
    ensures ok == Free(F, n).ok && Now(Free(F, n).after, trace)
    decreases Live(F), 1, 3
  {
    RefsPointer(F, n);
    if n.refs != null {
      ok := FreeReferenced(n, trace, F);
    } else {
      ok := FreeUnreferenced(n, trace, F);
    }
  }

  lemma RefusedPoints(F: Forest<Chunk>, n: Chunk)
    requires Points(F) && n in F.destructor
    ensures Points(Ran(F, n))
  {
  }

  /** The branch of a chunk that has references. */
  method FreeReferenced(n: Chunk, trace: Trace, ghost F: Forest<Chunk>) returns (ok: bool)
    requires CanFree(F, n) && F.refs[n] != [] && n.refs == F.refs[n][0] && Now(F, trace)
    modifies F.up.Keys, trace
    ensures ok == Free(F, n).ok && Now(Free(F, n).after, trace)
    decreases Live(F), 1, 2
  {
    var h: Chunk := n.refs;
    FirstReference(F, n, h);
    assert h in F.refs[n];
    HandleGone(F, h);
    S.FreeableIsClear(F, n);
    var isChild := IsParent(h, n, F);
    SeenKept(F, n, h);
    ghost var G := S.FreeHandle(F, h);
    var _ := FreeInternal(h, trace, F);
    if isChild {
      ReferenceFromBelow(F, n, h, G);
      ok := FreeInternal(n, trace, G);
      return;
    }
    return false;
  }

  /** The branch of a chunk without references: its destructor may refuse. */
  method FreeUnreferenced(n: Chunk, trace: Trace, ghost F: Forest<Chunk>) returns (ok: bool)
    requires CanFree(F, n) && F.refs[n] == [] && n.destructor == F.destructor[n] && Now(F, trace)
    modifies F.up.Keys, trace
    ensures ok == Free(F, n).ok && Now(Free(F, n).after, trace)
    decreases Live(F), 1, 1
  {
    hide Settled, Points;
    RunDestructor(n, trace, F);
    if n.destructor == Refuses {
      return false;
    }
    BeginSettles(F, n);
    FreeSubtree(n, trace, F, Ran(F, n));
    return true;
  }

  method RunDestructor(n: Chunk, trace: Trace, ghost F: Forest<Chunk>)
    requires n in F.destructor && n.destructor == F.destructor[n] && Now(F, trace)
    modifies trace
    ensures Now(Ran(F, n), trace)
  {
    if n.destructor != NoDestructor {
      trace.ran := trace.ran + [n];
    }
    RefusedPoints(F, n);
  }

  /** The part after the destructor has agreed. */
  method FreeSubtree(n: Chunk, trace: Trace, ghost F: Forest<Chunk>, ghost A: Forest<Chunk>)
    requires CanFree(F, n) && F.refs[n] == [] && F.destructor[n] != Refuses && A == Ran(F, n) && Now(A, trace)
    requires WellFormed(A) && CanFreeKids(S.Begin(A, n), n) && Live(S.Begin(A, n)) < Live(F)
    requires S.Begin(A, n).up == F.up[n := None]
    modifies F.up.Keys, trace
    ensures Now(S.Release(FreeKids(S.Begin(A, n), n).after, n), trace)
    decreases Live(F), 1, 0
  {
    hide Settled, WellFormed;
    ghost var B := BeginTraced(n, trace, A);
    ReleaseSettles(F, n, FreeKids(B, n).after);
    FreeRest(n, trace, F, B);
  }

  method BeginTraced(n: Chunk, trace: Trace, ghost F: Forest<Chunk>) returns (ghost B: Forest<Chunk>)
    requires WellFormed(F) && Now(F, trace) && n in F.up && n !in F.loop
    modifies F.up.Keys`next, F.up.Keys`prev, F.up.Keys`parent, F.up.Keys`child, n`loop
    ensures B == S.Begin(F, n) && Now(B, trace) && B.up.Keys == F.up.Keys
  {
    BeginFree(n, F);
    B := S.Begin(F, n);
    S.ListsAgreeDetach(F, n);
  }

  /** The children go, then the memory. */
  method FreeRest(n: Chunk, trace: Trace, ghost F: Forest<Chunk>, ghost B: Forest<Chunk>)
    requires CanFreeKids(B, n) && Now(B, trace) && B.up.Keys <= F.up.Keys && Live(B) < Live(F)
    requires WellFormed(S.Release(FreeKids(B, n).after, n))
    modifies F.up.Keys, trace
    ensures Now(S.Release(FreeKids(B, n).after, n), trace)
    decreases Live(F), 0
  {
    FreeChildren(n, trace, B);
    ReleasedPoints(FreeKids(B, n).after, n);
  }

  lemma ReleasedPoints(K: Forest<Chunk>, n: Chunk)
    requires WellFormed(K) && Points(K) && n in K.loop && WellFormed(S.Release(K, n))
    ensures Points(S.Release(K, n))
  {
    assert BeingFreed(K, n);
    ReleaseFields(K, n);
    ReleasedTree(K, n, S.Release(K, n));
    ReleasedRest(K, n, S.Release(K, n));
  }

  /** _tc_free_children_internal. */
  method FreeChildren(n: Chunk, trace: Trace, ghost F: Forest<Chunk>)
    requires CanFreeKids(F, n) && Now(F, trace)
    modifies F.up.Keys, trace
    ensures Now(FreeKids(F, n).after, trace)
    decreases Live(F), |F.kids[n]| + 4
  {
    hide WellFormed, RestOk;
    ghost var A := F;
    RefsPointer(A, n);
    while n.child != null
      invariant CanFreeKids(A, n) && Now(A, trace) && A.up.Keys <= F.up.Keys
      invariant n.child == At(A.kids[n], 0)
      invariant FreeKids(A, n).after == FreeKids(F, n).after
      invariant Live(A) < Live(F) || (Live(A) == Live(F) && |A.kids[n]| <= |F.kids[n]|)
      decreases Live(A), |A.kids[n]|
    {
      A := FreeFirstChild(n, n.child, trace, A);
      RefsPointer(A, n);
    }
  }

  /** A is F after one turn of the loop over the children of `n`. */
  ghost predicate IsTurn(F: Forest<Chunk>, n: Chunk, A: Forest<Chunk>) {
    && CanFreeKids(F, n) && CanFreeKids(A, n) && A.up.Keys <= F.up.Keys
    && FreeKids(F, n).after == FreeKids(A, n).after
    && (Live(A) < Live(F) || (Live(A) == Live(F) && |A.kids[n]| < |F.kids[n]|))
  }

  lemma TurnFreed(F: Forest<Chunk>, n: Chunk, c: Chunk, A: Forest<Chunk>)
    requires CanFreeKids(F, n) && F.kids[n] != [] && c == F.kids[n][0]
    requires CanFreeAny(F, c) && FreeAny(F, c).after == A && FreeAny(F, c).ok
    ensures IsTurn(F, n, A)
  {
    KidSettled(F, n, A, true);
  }

  lemma TurnFailed(F: Forest<Chunk>, n: Chunk, c: Chunk, A: Forest<Chunk>, p: Option<Chunk>)
    requires CanFreeKids(F, n) && F.kids[n] != [] && c == F.kids[n][0]
    requires CanFreeAny(F, c) && FreeAny(F, c).after == A && !FreeAny(F, c).ok && c in F.refs && p == Heir(F, n, c)
    ensures WellFormed(A) && n in A.loop && n in A.up && c in A.up && A.up[c] == Some(n) && c !in A.loop
    ensures A.loop == F.loop && A.up.Keys <= F.up.Keys && (p.Some? ==> p.value in A.up)
    ensures WellFormed(S.Steal(A, c, p)) && IsTurn(F, n, S.Steal(A, c, p))
  {
    KidIsFreeable(F, n);
    KidSettled(F, n, A, false);
    HeirFits(F, n, A);
    AbandonSettles(F, n, A, c, p);
    AbandonShrinks(F, n, A, c, p);
    StealIsLive(A, c, p);
  }

  /** The holder of the most recent reference to `c`. */
  method HolderOf(c: Chunk, ghost F: Forest<Chunk>, ghost n: Chunk) returns (owner: Chunk?)
    requires WellFormed(F) && Points(F) && c in F.up && n in F.loop
    ensures c in F.refs && Heir(F, n, c) == if owner != null then Some(owner) else F.loop[n]
  {
    RefsPointer(F, c);
    owner := null;
    if c.refs != null {
      var h: Chunk := c.refs;
      assert h in F.refs[c];
      HandleAlive(F, c, h);
      assert HandleIsLeaf(F, h);
      owner := ParentChunk(h, F);
    }
  }

  /** One turn of the loop over the children. */
  method FreeFirstChild(n: Chunk, c: Chunk, trace: Trace, ghost F: Forest<Chunk>) returns (ghost A: Forest<Chunk>)
    requires CanFreeKids(F, n) && F.kids[n] != [] && c == F.kids[n][0] && Now(F, trace)
    modifies F.up.Keys, trace
    ensures IsTurn(F, n, A) && Now(A, trace)
    decreases Live(F), |F.kids[n]| + 3
  {
    KidIsFreeable(F, n);
    var owner := HolderOf(c, F, n);
    var ok := FreeInternal(c, trace, F);
    A := FreeAny(F, c).after;
    if ok {
      TurnFreed(F, n, c, A);
    } else {
      TurnFailed(F, n, c, A, Heir(F, n, c));
      GiveAway(n, c, owner, trace, A, Heir(F, n, c));
      A := S.Steal(A, c, Heir(F, n, c));
    }
  }

  lemma StealRan(A: Forest<Chunk>, c: Chunk, p: Option<Chunk>)
    requires c in A.up && ListsAgree(A.up, A.kids) && (p.Some? ==> p.value in A.up)
    ensures S.Steal(A, c, p).ran == A.ran
  {
  }

  /** A child that could not be freed gets another owner, unless it has left already. */
  method GiveAway(n: Chunk, c: Chunk, holder: Chunk?, trace: Trace, ghost A: Forest<Chunk>, ghost heir: Option<Chunk>)
    requires WellFormed(A) && Now(A, trace) && n in A.loop && n in A.up && c in A.up && A.up[c] == Some(n) && c !in A.loop
    requires heir == if holder != null then Some(holder) else A.loop[n]
    requires heir.Some? ==> heir.value in A.up
    requires WellFormed(S.Steal(A, c, heir))
    modifies A.up.Keys`next, A.up.Keys`prev, A.up.Keys`parent, A.up.Keys`child
    ensures Now(S.Steal(A, c, heir), trace)
  {
    StealRan(A, c, heir);
    var parent := ParentChunk(c, A);
    var owner := holder;
    if parent == n {
      if owner == null {
        owner := ParentChunk(n, A);
      }
      assert Maybe(owner) == heir;
      Steal(owner, c, A);
    }
  }
}
