/**
 The public operations of talloc/talloc.c on chunks with several parents (:739-819, 1001-1021,
 1350-1490), each proved to do to the pointers what a function of ForestSteps, ForestHolders or
 ForestRuns does to the hierarchy.
 */
module TallocHolders {
  import opened Wrappers
  import opened Forests
  import S = ForestSteps
  import opened ForestFree
  import H = ForestHolders
  import R = ForestRuns
  import opened ChunkLists
  import opened Talloc
  import T = TallocHierarchy

  // ----- Unlinking -----

  /** The loop that looks for the most recent reference that `context` holds. */
  method FindReference(context: Chunk?, ptr: Chunk, ghost F: Forest<Chunk>) returns (h: Chunk?)
    requires WellFormed(F) && Points(F) && H.Known(F, ptr)
    ensures T.Maybe(h) == H.HeldBy(F.up, F.refs[ptr], T.Maybe(context))
  {
    hide ListsAgree;
    T.RefsPointer(F, ptr);
    ghost var s := F.refs[ptr];
    ghost var i := 0;
    assert RefsCell(F.refs, ptr);
    h := ptr.refs;
    assert s[0..] == s;
    while h != null
      invariant 0 <= i <= |s| && h == At(s, i)
      invariant H.HeldBy(F.up, s, T.Maybe(context)) == H.HeldBy(F.up, s[i..], T.Maybe(context))
      decreases |s| - i
    {
      assert RefLinkedAt(s, i) && s[i] in s;
      assert HandleIsLeaf(F, s[i]);
      var p := ParentChunk(h, F);
      if p == context {
        return;
      }
      assert s[i..][1..] == s[i + 1..];
      h := h.refNext;
      i := i + 1;
    }
  }

  /** talloc_unreference. */
  method Unreference(context: Chunk?, ptr: Chunk, trace: T.Trace, ghost F: Forest<Chunk>) returns (ok: bool)
    requires WellFormed(F) && T.Now(F, trace) && H.Known(F, ptr)
    modifies F.up.Keys, trace
    ensures ok == H.Unreference(F, T.Maybe(context), ptr).1
    ensures T.Now(H.Unreference(F, T.Maybe(context), ptr).0, trace)
  {
    var h := FindReference(context, ptr, F);
    if h == null {
      return false;
    }
    var handle: Chunk := h;
    ok := T.FreeInternal(handle, trace, F);
  }

  /** talloc_unlink. */
  method Unlink(context: Chunk?, ptr: Chunk, trace: T.Trace, ghost F: Forest<Chunk>) returns (ok: bool)
    requires H.CanUnlink(F, T.Maybe(context), ptr) && T.Now(F, trace)
    modifies F.up.Keys, trace
    ensures ok == H.Unlink(F, T.Maybe(context), ptr).ok
    ensures T.Now(H.Unlink(F, T.Maybe(context), ptr).after, trace)
  {
    ok := Unreference(context, ptr, trace, F);
    if !ok {
      var parent := ParentChunk(ptr, F);
      if context == parent {
        ok := UnlinkParent(ptr, trace, F);
      }
    }
  }

  /** _talloc_free. */
  method TallocFree(ptr: Chunk, trace: T.Trace, ghost F: Forest<Chunk>) returns (ok: bool)
    requires H.Quiet(F) && H.Known(F, ptr) && R.FreeableIfBare(F, ptr) && T.Now(F, trace)
    modifies F.up.Keys, trace
    ensures ok == R.TallocFree(F, ptr).ok && T.Now(R.TallocFree(F, ptr).after, trace)
  {
    hide WellFormed, TreeOk, Cyclic, RestOk;
    T.RefsPointer(F, ptr);
    if ptr.refs != null {
      var parent := ParentChunk(ptr, F);
      SecondReference(F, ptr);
      if parent == null && ptr.refs.refNext == null {
        ok := Unlink(null, ptr, trace, F);
        return;
      }
      return false;
    }
    ok := FreeBare(ptr, trace, F);
  }

  lemma SecondReference(F: Forest<Chunk>, ptr: Chunk)
    requires WellFormed(F) && Points(F) && ptr in F.refs && ptr.refs != null && ptr.refs == At(F.refs[ptr], 0)
    ensures ptr.refs.refNext == null <==> |F.refs[ptr]| == 1
  {
    assert RefsCell(F.refs, ptr);
    assert RefLinkedAt(F.refs[ptr], 0);
  }

  method FreeBare(ptr: Chunk, trace: T.Trace, ghost F: Forest<Chunk>) returns (ok: bool)
    requires H.Quiet(F) && H.Known(F, ptr) && F.refs[ptr] == [] && !Cyclic(F.up, ptr) && T.Now(F, trace)
    modifies F.up.Keys, trace
    ensures ok == Free(F, ptr).ok && T.Now(Free(F, ptr).after, trace)
  {
    hide ListsAgree, HandlesAreLeaves, LoopAgrees, TreeOk;
    ok := T.FreeInternal(ptr, trace, F);
  }

  /** The branch in which the context is the parent of the chunk. */
  method UnlinkParent(ptr: Chunk, trace: T.Trace, ghost F: Forest<Chunk>) returns (ok: bool)
    requires ptr in F.up && H.CanUnlink(F, F.up[ptr], ptr) && T.Now(F, trace)
    requires H.HeldBy(F.up, F.refs[ptr], F.up[ptr]).None?
    modifies F.up.Keys, trace
    ensures ok == H.Unlink(F, F.up[ptr], ptr).ok
    ensures T.Now(H.Unlink(F, F.up[ptr], ptr).after, trace)
  {
    T.RefsPointer(F, ptr);
    if ptr.refs == null {
      ok := T.FreeInternal(ptr, trace, F);
    } else {
      ok := TakeOver(ptr, trace, F);
    }
  }

  /** The holder of the most recent reference becomes the parent. */
  method TakeOver(ptr: Chunk, trace: T.Trace, ghost F: Forest<Chunk>) returns (ok: bool)
    requires ptr in F.up && H.CanUnlink(F, F.up[ptr], ptr) && T.Now(F, trace) && F.refs[ptr] != [] && ptr.refs == F.refs[ptr][0]
    requires H.HeldBy(F.up, F.refs[ptr], F.up[ptr]).None?
    modifies F.up.Keys, trace
    ensures ok == H.Unlink(F, F.up[ptr], ptr).ok
    ensures T.Now(H.Unlink(F, F.up[ptr], ptr).after, trace)
  {
    hide Above, ListsAgree, HandlesAreLeaves, LoopAgrees;
    var h: Chunk := ptr.refs;
    TakenOver(F, ptr, h);
    var newParent := ParentChunk(h, F);
    ok := Unreference(newParent, ptr, trace, F);
    StealTraced(newParent, ptr, trace, S.FreeHandle(F, h));
  }

  lemma TakenOver(F: Forest<Chunk>, ptr: Chunk, h: Chunk)
    requires ptr in F.up && H.CanUnlink(F, F.up[ptr], ptr) && F.refs[ptr] != [] && h == F.refs[ptr][0]
    requires H.HeldBy(F.up, F.refs[ptr], F.up[ptr]).None?
    ensures h in F.up && h in F.target && F.target[h].Some? && h !in F.loop && LoopAgrees(F)
    ensures H.Unreference(F, F.up[h], ptr) == (S.FreeHandle(F, h), true)
    ensures var A := S.FreeHandle(F, h);
      && WellFormed(A) && A.up.Keys <= F.up.Keys && ptr in A.up && ptr !in A.loop && R.Existing(A, F.up[h])
      && WellFormed(S.Steal(A, ptr, F.up[h]))
      && H.Unlink(F, F.up[ptr], ptr).after == S.Steal(A, ptr, F.up[h]) && H.Unlink(F, F.up[ptr], ptr).ok
  {
    assert h in F.refs[ptr] && HandleIsLeaf(F, h);
    assert H.HeldBy(F.up, F.refs[ptr], F.up[h]) == Some(h);
    H.ReferenceGone(F, ptr, h);
    R.TakenOver(F, ptr, h);
    R.MoveKeepsIff(S.FreeHandle(F, h), ptr, F.up[h]);
  }

  method StealTraced(p: Chunk?, n: Chunk, trace: T.Trace, ghost F: Forest<Chunk>)
    requires WellFormed(F) && T.Now(F, trace) && n in F.up && n !in F.loop && (p != null ==> p in F.up)
    requires WellFormed(S.Steal(F, n, T.Maybe(p)))
    modifies F.up.Keys`next, F.up.Keys`prev, F.up.Keys`parent, F.up.Keys`child
    ensures T.Now(S.Steal(F, n, T.Maybe(p)), trace)
  {
    T.StealRan(F, n, T.Maybe(p));
    T.Steal(p, n, F);
  }

  // ----- Allocating and referencing -----

  /** G is F with a new chunk without parent. */
  ghost predicate IsSprouted(F: Forest<Chunk>, n: Chunk, d: Destructor, G: Forest<Chunk>) {
    && n !in F.up && G == S.Sprout(F, n, d)
    && ListsAgree(G.up, G.kids) && Closed(G.kids) && Closed(G.refs) && Closed(F.refs)
  }

  method NewChunk(d: Destructor, ghost F: Forest<Chunk>) returns (n: Chunk)
    requires Points(F)
    ensures fresh(n) && n !in F.up && Points(F) && n.next == n.prev == n.parent == n.child == null
    ensures n.refs == null && n.target == null && n.destructor == d && !n.loop
  {
    n := new Chunk(d);
  }

  lemma SproutedTree(F: Forest<Chunk>, n: Chunk, d: Destructor, G: Forest<Chunk>)
    requires IsSprouted(F, n, d, G) && TreeOk(F.up, F.kids, F.loop, {}) && n !in F.loop
    requires n.next == n.prev == n.parent == n.child == null
    ensures TreeOk(G.up, G.kids, G.loop, {})
  {
    forall c | c in G.kids
      ensures KidsCell(G.kids, c)
    {
      assert c != n ==> KidsCell(F.kids, c);
    }
    forall c | c in G.up
      ensures RootCell(G.up, G.loop, c)
    {
      assert c != n ==> RootCell(F.up, F.loop, c);
    }
  }

  lemma SproutedRest(F: Forest<Chunk>, n: Chunk, d: Destructor, G: Forest<Chunk>)
    requires IsSprouted(F, n, d, G) && RestOk(F) && n !in F.loop
    requires n.refs == null && n.target == null && n.destructor == d && !n.loop
    ensures RestOk(G)
  {
    hide ListsAgree, RefsCell;
    SproutedRefs(F.refs, n, G.refs);
  }

  lemma SproutedRefs(before: map<Chunk, seq<Chunk>>, n: Chunk, after: map<Chunk, seq<Chunk>>)
    requires Closed(before) && RefsOk(before) && Closed(after) && after == before[n := []] && n.refs == null
    ensures RefsOk(after)
  {
    forall c | c in after
      ensures RefsCell(after, c)
    {
      assert c != n ==> RefsCell(before, c);
    }
  }

  lemma RootLoose(up: map<Chunk, Option<Chunk>>, kids: map<Chunk, seq<Chunk>>, loop: map<Chunk, Option<Chunk>>, n: Chunk)
    requires TreeOk(up, kids, loop, {})
    ensures TreeOk(up, kids, loop, {n})
  {
  }

  /** __talloc_with_prefix: a chunk of its own, then the first child of the context. */
  method Allocate(context: Chunk?, d: Destructor, ghost F: Forest<Chunk>) returns (n: Chunk)
    requires H.Quiet(F) && Points(F) && R.Existing(F, T.Maybe(context))
    modifies F.up.Keys
    ensures fresh(n) && n !in F.up && H.Quiet(S.Alloc(F, n, T.Maybe(context), d))
    ensures Points(S.Alloc(F, n, T.Maybe(context), d))
  {
    n := NewChunk(d, F);
    S.AllocKeeps(F, n, T.Maybe(context), d);
    Link(context, n, d, F);
  }

  method Link(context: Chunk?, n: Chunk, d: Destructor, ghost F: Forest<Chunk>)
    requires H.Quiet(F) && Points(F) && n !in F.up && R.Existing(F, T.Maybe(context))
    requires n.next == n.prev == n.parent == n.child == null
    requires n.refs == null && n.target == null && n.destructor == d && !n.loop
    requires WellFormed(S.Alloc(F, n, T.Maybe(context), d))
    modifies F.up.Keys, n
    ensures Points(S.Alloc(F, n, T.Maybe(context), d))
  {
    ghost var G := S.Sprout(F, n, d);
    S.SproutKeeps(F, n, d);
    SproutedTree(F, n, d, G);
    SproutedRest(F, n, d, G);
    if context != null {
      var p: Chunk := context;
      RootLoose(G.up, G.kids, G.loop, n);
      T.AttachFields(G, n, p, S.Attach(G, n, p));
      Entering(n, p, G, S.Attach(G, n, p));
    }
  }

  /** The lists of references before and after `h` became the most recent one of `t`. */
  ghost predicate IsListed(target: map<Chunk, Option<Chunk>>, refs: map<Chunk, seq<Chunk>>, h: Chunk, t: Chunk,
                           refsAfter: map<Chunk, seq<Chunk>>) {
    && ListsAgree(target, refs) && t in refs && NoDuplicates(refs[t]) && h in target && target[h].None?
    && refsAfter == refs[t := [h] + refs[t]] && Closed(refs) && Closed(refsAfter)
  }

  method PutReference(h: Chunk, t: Chunk, ghost target: map<Chunk, Option<Chunk>>,
                      ghost refs: map<Chunk, seq<Chunk>>, ghost refsAfter: map<Chunk, seq<Chunk>>)
    requires IsListed(target, refs, h, t, refsAfter) && RefsOk(refs)
    modifies refs.Keys`refs, refs.Keys`refNext, refs.Keys`refPrev
    ensures RefsOk(refsAfter)
  {
    assert RefsCell(refs, t);
    ghost var s := refs[t];
    assert forall x :: x in s ==> x in refs && target[x] == Some(t);
    t.refs := RefListAdd(t.refs, h, s);
    forall c | c in refsAfter
      ensures RefsCell(refsAfter, c)
    {
      if c != t {
        T.OtherReferences(target, refs, t, c);
        assert old(RefsCell(refs, c));
        assert forall x :: x in refs[c] ==> target[x] == Some(c);
        assert forall k :: 0 <= k < |refs[c]| ==> refs[c][k] in refs[c];
        assert RefLinked(refs[c], c.refs);
      }
    }
  }

  /** G is F with `h` as the most recent reference of `t`. */
  ghost predicate IsCited(F: Forest<Chunk>, h: Chunk, t: Chunk, G: Forest<Chunk>) {
    && IsListed(F.target, F.refs, h, t, G.refs) && G.target == F.target[h := Some(t)]
    && G.destructor == F.destructor && G.loop == F.loop && G.up == F.up && G.kids == F.kids
  }

  method Cite(h: Chunk, t: Chunk, ghost F: Forest<Chunk>, ghost G: Forest<Chunk>)
    requires RestOk(F) && IsCited(F, h, t, G)
    modifies F.refs.Keys`refs, F.refs.Keys`refNext, F.refs.Keys`refPrev, h`target
    ensures RestOk(G)
  {
    PutReference(h, t, F.target, F.refs, G.refs);
    h.target := t;
  }

  lemma CiteFields(F: Forest<Chunk>, h: Chunk, t: Chunk)
    requires WellFormed(F) && t in F.refs && WellFormed(S.Cite(F, h, t))
    requires h in F.up && h in F.target && F.target[h].None?
    ensures IsCited(F, h, t, S.Cite(F, h, t))
  {
    assert NoDuplicates(F.refs[t]);
  }

  /** The new chunk becomes a reference. */
  method CiteNew(h: Chunk, ptr: Chunk, ghost F: Forest<Chunk>)
    requires WellFormed(F) && Points(F) && ptr in F.refs && WellFormed(S.Cite(F, h, ptr))
    requires h in F.up && h in F.target && F.target[h].None?
    modifies F.up.Keys`refs, F.up.Keys`refNext, F.up.Keys`refPrev, h`target
    ensures Points(S.Cite(F, h, ptr))
  {
    CiteFields(F, h, ptr);
    Cite(h, ptr, F, S.Cite(F, h, ptr));
    assert TreeOk(F.up, F.kids, F.loop, {});
  }

  /** _talloc_reference_loc. */
  method Reference(context: Chunk?, ptr: Chunk, ghost F: Forest<Chunk>) returns (h: Chunk)
    requires H.Quiet(F) && Points(F) && R.Existing(F, T.Maybe(context)) && ProperChunk(F, ptr)
    modifies F.up.Keys
    ensures fresh(h) && h !in F.up && H.Quiet(R.Refer(F, h, T.Maybe(context), ptr))
    ensures Points(R.Refer(F, h, T.Maybe(context), ptr))
  {
    h := Allocate(context, NoDestructor, F);
    ReferFields(F, h, T.Maybe(context), ptr);
    CiteNew(h, ptr, S.Alloc(F, h, T.Maybe(context), NoDestructor));
  }

  lemma ReferFields(F: Forest<Chunk>, h: Chunk, p: Option<Chunk>, ptr: Chunk)
    requires H.Quiet(F) && h !in F.up && R.Existing(F, p) && ProperChunk(F, ptr)
    ensures H.Quiet(R.Refer(F, h, p, ptr)) && WellFormed(S.Alloc(F, h, p, NoDestructor))
    ensures ptr in S.Alloc(F, h, p, NoDestructor).refs
    ensures R.Refer(F, h, p, ptr) == S.Cite(S.Alloc(F, h, p, NoDestructor), h, ptr)
    ensures S.Alloc(F, h, p, NoDestructor).up.Keys == F.up.Keys + {h}
    ensures h in S.Alloc(F, h, p, NoDestructor).target && S.Alloc(F, h, p, NoDestructor).target[h].None?
  {
    R.ReferKeeps(F, h, p, ptr);
    S.AllocKeeps(F, h, p, NoDestructor);
  }

  /** talloc_reparent. */
  method Reparent(before: Chunk?, newParent: Chunk?, ptr: Chunk, trace: T.Trace, ghost F: Forest<Chunk>) returns (ok: bool)
    requires H.Quiet(F) && T.Now(F, trace) && ProperChunk(F, ptr) && R.Existing(F, T.Maybe(newParent))
    modifies F.up.Keys
    ensures T.Now(R.Rehome(F, T.Maybe(before), T.Maybe(newParent), ptr).after, trace)
    ensures ok <==> H.Known(F, ptr) && T.Maybe(before) in H.Holders(F, ptr)
  {
    hide WellFormed;
    H.KnownChunk(F, ptr);
    R.RehomeKeeps(F, T.Maybe(before), T.Maybe(newParent), ptr);
    var parent := ParentChunk(ptr, F);
    if before == parent {
      StealTraced(newParent, ptr, trace, F);
      return true;
    }
    var h := FindReference(before, ptr, F);
    if h == null {
      return false;
    }
    var handle: Chunk := h;
    StealTraced(newParent, handle, trace, F);
    return true;
  }
}
