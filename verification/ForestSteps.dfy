/**
 The steps of talloc/talloc.c on a hierarchy: allocating below a parent (:739-819), moving
 (:1260-1335), referencing (:957-962, 1001-1021) and the parts of freeing (:1110-1224).  Each keeps
 the hierarchy well formed under a condition that a caller can check.
 */
module ForestSteps {
  import opened Wrappers
  import opened Forests

  // ----- The steps -----

  ghost function Detach<N>(F: Forest<N>, n: N): Forest<N>
    requires n in F.up && ListsAgree(F.up, F.kids)
  {
    assert Listed(F.up, F.kids, n);
    match F.up[n]
    case None => F
    case Some(p) => F.(up := F.up[n := None], kids := F.kids[p := Without(F.kids[p], n)])
  }

  ghost function Attach<N>(F: Forest<N>, n: N, p: N): Forest<N>
    requires p in F.kids
  {
    F.(up := F.up[n := Some(p)], kids := F.kids[p := [n] + F.kids[p]])
  }

  /** The `parent` field of a chunk: only the first of the siblings has one. */
  ghost function ParentField<N>(F: Forest<N>, n: N): Option<N>
    requires n in F.up && ListsAgree(F.up, F.kids)
  {
    assert Listed(F.up, F.kids, n);
    if n in F.loop then F.loop[n]
    else if F.up[n].Some? && F.kids[F.up[n].value][0] == n then F.up[n]
    else None
  }

  /** _talloc_steal_internal: nothing happens when the chunk is the first child of its new parent already. */
  ghost function Steal<N>(F: Forest<N>, n: N, p: Option<N>): Forest<N>
    requires n in F.up && ListsAgree(F.up, F.kids) && (p.Some? ==> p.value in F.up)
  {
    if p.None? then Detach(F, n)
    else if n == p.value || ParentField(F, n) == p then F
    else
      ListsAgreeDetach(F, n);
      Attach(Detach(F, n), n, p.value)
  }

  ghost function Sprout<N>(F: Forest<N>, n: N, d: Destructor): Forest<N> {
    F.(up := F.up[n := None], kids := F.kids[n := []], refs := F.refs[n := []],
      target := F.target[n := None], destructor := F.destructor[n := d])
  }

  ghost function Alloc<N>(F: Forest<N>, n: N, p: Option<N>, d: Destructor): Forest<N>
    requires n !in F.up && (p.Some? ==> p.value in F.kids && p.value != n)
  {
    if p.None? then Sprout(F, n, d) else Attach(Sprout(F, n, d), n, p.value)
  }

  /** Make the chunk `h` a reference to `t`. */
  ghost function Cite<N>(F: Forest<N>, h: N, t: N): Forest<N>
    requires t in F.refs
  {
    F.(target := F.target[h := Some(t)], refs := F.refs[t := [h] + F.refs[t]])
  }

  /** The destructor of a reference handle. */
  ghost function Uncite<N>(F: Forest<N>, h: N): Forest<N>
    requires h in F.target && F.target[h].Some? && F.target[h].value in F.refs
  {
    var t := F.target[h].value;
    F.(target := F.target[h := None], refs := F.refs[t := Without(F.refs[t], h)])
  }

  /** Leave the parent, keep the `parent` field, and take the flag against free loops. */
  ghost function Begin<N>(F: Forest<N>, n: N): Forest<N>
    requires n in F.up && ListsAgree(F.up, F.kids)
  {
    Detach(F, n).(loop := F.loop[n := ParentField(F, n)])
  }

  /** The memory of the chunk is released. */
  ghost function Release<N>(F: Forest<N>, n: N): Forest<N> {
    F.(up := F.up - {n}, kids := F.kids - {n}, refs := F.refs - {n}, target := F.target - {n},
      destructor := F.destructor - {n}, loop := F.loop - {n})
  }

  /** Freeing a reference handle. */
  ghost function FreeHandle<N>(F: Forest<N>, h: N): Forest<N>
    requires WellFormed(F) && h in F.target && F.target[h].Some?
  {
    assert Listed(F.target, F.refs, h);
    Release(Detach(Uncite(F, h), h), h)
  }

  lemma ListsAgreeDetach<N>(F: Forest<N>, n: N)
    requires n in F.up && ListsAgree(F.up, F.kids)
    ensures ListsAgree(Detach(F, n).up, Detach(F, n).kids) && Detach(F, n).up == F.up[n := None]
  {
    if F.up[n].Some? {
      ListsCut(F.up, F.kids, n);
    } else {
      assert F.up[n := None] == F.up;
    }
  }

  // ----- Chunks that are being freed -----

  /** `n` is above no kept parent that lives outside of the trees being freed. */
  ghost predicate Clear<N>(F: Forest<N>, n: N) {
    forall m {:trigger ClearOf(F, n, m)} :: m in F.loop ==> ClearOf(F, n, m)
  }

  ghost predicate ClearOf<N>(F: Forest<N>, n: N, m: N)
    requires m in F.loop
  {
    F.loop[m].Some? && F.loop[m].value !in F.loop ==> !Above(F.up, n, F.loop[m].value)
  }

  /** `n` is freed by its user, and is on no cycle, or as a child of a chunk that is being freed. */
  ghost predicate Freeable<N>(F: Forest<N>, n: N) {
    && ProperChunk(F, n) && n !in F.loop
    && if F.loop == map[] then !Cyclic(F.up, n) else F.up[n].Some? && F.up[n].value in F.loop
  }

  lemma FreeableIsClear<N>(F: Forest<N>, n: N)
    requires LoopAgrees(F) && Freeable(F, n)
    ensures Clear(F, n)
  {
    forall m | m in F.loop
      ensures ClearOf(F, n, m)
    {
      assert BeingFreed(F, m);
      var r := F.up[n].value;
      if F.loop[m].Some? && F.loop[m].value !in F.loop && Above(F.up, n, F.loop[m].value) {
        AboveItself(F.up, r);
        AboveStep(F.up, r, n);
        AboveTrans(F.up, r, n, F.loop[m].value);
        assert false;
      }
    }
  }

  /** No chunk being freed keeps `n` as its parent. */
  lemma FreeableIsNotKept<N>(F: Forest<N>, n: N, m: N)
    requires LoopAgrees(F) && Freeable(F, n) && m in F.loop
    ensures F.loop[m] != Some(n)
  {
    assert BeingFreed(F, m);
    if F.loop[m] == Some(n) {
      var r := F.up[n].value;
      AboveItself(F.up, r);
      AboveStep(F.up, r, n);
      assert false;
    }
  }

  /** Moving a clear chunk does not change what is known of the chunks being freed. */
  lemma MoveKeepsLoop<N>(F: Forest<N>, G: Forest<N>, n: N, p: Option<N>)
    requires LoopAgrees(F) && Clear(F, n) && n in F.up && n !in F.loop
    requires G.up == F.up[n := p] && G.loop == F.loop && G.target == F.target && G.refs == F.refs
    ensures LoopAgrees(G)
  {
    forall m | m in G.loop
      ensures BeingFreed(G, m)
    {
      assert BeingFreed(F, m) && ClearOf(F, n, m);
      if G.loop[m].Some? && G.loop[m].value !in G.loop {
        OutsideElsewhere(F.up, F.loop, n, p, G.loop[m].value);
      }
    }
  }

  lemma OutsideElsewhere<N>(up: map<N, Option<N>>, loop: map<N, Option<N>>, n: N, p: Option<N>, g: N)
    requires Outside(up, loop, g) && !Above(up, n, g)
    ensures Outside(up[n := p], loop, g)
  {
    var after := up[n := p];
    forall r | r in loop
      ensures !Above(after, r, g)
    {
      AboveElsewhere(up, n, p, r, g);
    }
  }

  /** Kept parents lead to a chunk that is clear of them no sooner and no later. */
  lemma {:induction false} KeptLeadNowhere<N>(F: Forest<N>, n: N, x: N, k: nat)
    requires LoopAgrees(F) && Clear(F, n) && n !in F.loop
    ensures Up(Parents(F.up, F.loop), x, k) == Some(n) <==> Up(F.up, x, k) == Some(n)
    decreases k
  {
    if k > 0 && x in F.up {
      if x in F.loop {
        assert BeingFreed(F, x) && ClearOf(F, n, x);
        if F.loop[x].Some? {
          var g := F.loop[x].value;
          KeptLeadNowhere(F, n, g, k - 1);
          if g in F.loop {
            assert BeingFreed(F, g);
          }
        }
      } else if F.up[x].Some? {
        KeptLeadNowhere(F, n, F.up[x].value, k - 1);
      }
    }
  }

  lemma ParentsLiveToo<N>(F: Forest<N>)
    requires ListsAgree(F.up, F.kids) && LoopAgrees(F)
    ensures ParentsLive(Parents(F.up, F.loop))
  {
    var parents := Parents(F.up, F.loop);
    forall n | n in parents
      ensures ParentLives(parents, n)
    {
      assert Listed(F.up, F.kids, n);
      assert n in F.loop ==> BeingFreed(F, n);
    }
  }

  /** Handles stay leaves when only a proper chunk gets children or is referenced. */
  lemma HandlesStay<N>(F: Forest<N>, G: Forest<N>)
    requires HandlesAreLeaves(F)
    requires G.refs.Keys == G.kids.Keys == G.destructor.Keys == G.target.Keys
    requires forall h :: h in G.target && G.target[h].Some? ==>
               && h in F.target && F.target[h].Some?
               && G.kids[h] == F.kids[h] && G.refs[h] == F.refs[h]
               && G.destructor[h] == F.destructor[h] && (h in G.loop ==> h in F.loop)
    ensures HandlesAreLeaves(G)
  {
    forall h | h in G.target && G.target[h].Some?
      ensures HandleIsLeaf(G, h)
    {
      assert HandleIsLeaf(F, h);
    }
  }

  // ----- Every step keeps the hierarchy well formed -----

  /** A handle is nobody's parent. */
  lemma ParentIsProper<N>(F: Forest<N>, n: N)
    requires ListsAgree(F.up, F.kids) && HandlesAreLeaves(F) && n in F.up && F.up[n].Some?
    ensures ProperChunk(F, F.up[n].value) && n in F.kids[F.up[n].value]
  {
    assert Listed(F.up, F.kids, n);
    assert F.target[F.up[n].value].Some? ==> HandleIsLeaf(F, F.up[n].value);
  }

  lemma DetachKeeps<N>(F: Forest<N>, n: N)
    requires WellFormed(F) && n in F.up && n !in F.loop && Clear(F, n)
    ensures WellFormed(Detach(F, n)) && Detach(F, n).up == F.up[n := None]
  {
    ListsAgreeDetach(F, n);
    if F.up[n].Some? {
      ParentIsProper(F, n);
      MoveKeepsLoop(F, Detach(F, n), n, None);
      HandlesStay(F, Detach(F, n));
    }
  }

  lemma AttachKeeps<N>(F: Forest<N>, n: N, p: N)
    requires WellFormed(F) && n in F.up && n !in F.loop && F.up[n].None? && Clear(F, n)
    requires ProperChunk(F, p)
    ensures WellFormed(Attach(F, n, p))
  {
    hide Above, Parents;
    ListsHook(F.up, F.kids, n, p);
    MoveKeepsLoop(F, Attach(F, n, p), n, Some(p));
    HandlesStay(F, Attach(F, n, p));
  }

  lemma DetachStaysClear<N>(F: Forest<N>, n: N)
    requires ListsAgree(F.up, F.kids) && n in F.up && Clear(F, n)
    ensures Clear(Detach(F, n), n)
  {
    ListsAgreeDetach(F, n);
    var G := Detach(F, n);
    forall m | m in G.loop
      ensures ClearOf(G, n, m)
    {
      assert ClearOf(F, n, m);
      if F.loop[m].Some? {
        SameBelow(F.up, n, None, F.loop[m].value);
      }
    }
  }

  lemma RehangKeeps<N>(F: Forest<N>, n: N, p: N)
    requires WellFormed(F) && n in F.up && n !in F.loop && Clear(F, n)
    requires ProperChunk(F, p)
    ensures ListsAgree(Detach(F, n).up, Detach(F, n).kids)
    ensures p in Detach(F, n).kids && WellFormed(Attach(Detach(F, n), n, p))
    ensures Attach(Detach(F, n), n, p).up == F.up[n := Some(p)]
  {
    hide Above, Parents, Clear;
    DetachKeeps(F, n);
    DetachStaysClear(F, n);
    AttachKeeps(Detach(F, n), n, p);
    assert F.up[n := None][n := Some(p)] == F.up[n := Some(p)];
  }

  lemma {:induction false} WithoutNothing<N>(s: seq<N>, x: N)
    requires x !in s
    ensures Without(s, x) == s
    decreases |s|
  {
    if s != [] {
      WithoutNothing(s[1..], x);
    }
  }

  /** Wherever it was, the chunk becomes the first child of its new parent; the others keep their order. */
  lemma BecomesFirst<N>(F: Forest<N>, n: N, p: N)
    requires ListsAgree(F.up, F.kids) && n in F.up && n !in F.loop && p in F.up && p != n
    ensures p in F.kids && p in Steal(F, n, Some(p)).kids
    ensures Steal(F, n, Some(p)).kids[p] == [n] + Without(F.kids[p], n)
  {
    ListsAgreeDetach(F, n);
    assert Listed(F.up, F.kids, n);
    if F.up[n] != Some(p) {
      WithoutNothing(F.kids[p], n);
    } else if F.kids[p][0] == n {
      assert F.kids[p] == [n] + F.kids[p][1..];
    }
  }

  lemma StealKeeps<N>(F: Forest<N>, n: N, p: Option<N>)
    requires WellFormed(F) && n in F.up && n !in F.loop && Clear(F, n)
    requires p.Some? ==> ProperChunk(F, p.value)
    ensures WellFormed(Steal(F, n, p))
    ensures Steal(F, n, p).up == if p == Some(n) then F.up else F.up[n := p]
    ensures p.Some? && p.value != n ==>
      p.value in F.kids && p.value in Steal(F, n, p).kids
      && Steal(F, n, p).kids[p.value] == [n] + Without(F.kids[p.value], n)
  {
    if p.Some? && p.value != n {
      BecomesFirst(F, n, p.value);
    }
    if p.None? {
      DetachKeeps(F, n);
    } else if p.value != n {
      if ParentField(F, n) == p {
        assert F.up[n] == p && F.up[n := p] == F.up;
      } else {
        RehangKeeps(F, n, p.value);
      }
    }
  }

  /** The new owner `p` lies strictly below `c`. */
  ghost predicate IsBelow<N>(up: map<N, Option<N>>, c: N, p: Option<N>) {
    p.Some? && p.value != c && Above(up, c, p.value)
  }

  /** A steal closes a cycle exactly when the new parent lies strictly below the chunk. */
  lemma StealKeepsIff<N>(F: Forest<N>, n: N, p: Option<N>)
    requires WellFormed(F) && Grounded(F.up) && n in F.up && n !in F.loop && Clear(F, n)
    requires p.Some? ==> ProperChunk(F, p.value)
    ensures Grounded(Steal(F, n, p).up) <==> !IsBelow(F.up, n, p)
  {
    StealKeeps(F, n, p);
    ListsAgreeParents(F.up, F.kids);
    if p.None? {
      CutKeepsGrounded(F.up, n);
    } else if p.value != n {
      MoveKeepsGroundedIff(F.up, n, p.value);
    }
  }

  // ----- Allocation -----

  lemma AllocKeeps<N>(F: Forest<N>, n: N, p: Option<N>, d: Destructor)
    requires WellFormed(F) && F.loop == map[] && n !in F.up && (p.Some? ==> ProperChunk(F, p.value))
    ensures WellFormed(Alloc(F, n, p, d))
    ensures Alloc(F, n, p, d).up == F.up[n := p]
    ensures var G := Alloc(F, n, p, d);
      && G.destructor == F.destructor[n := d] && G.refs == F.refs[n := []] && G.target == F.target[n := None]
      && n in G.kids && G.kids[n] == [] && G.ran == F.ran && G.loop == F.loop
      && (p.Some? ==> p.value in F.kids && G.kids[p.value] == [n] + F.kids[p.value])
  {
    var G := Sprout(F, n, d);
    SproutKeeps(F, n, d);
    if p.Some? {
      AttachKeeps(G, n, p.value);
      assert F.up[n := None][n := p] == F.up[n := p];
    }
  }

  lemma SproutKeeps<N>(F: Forest<N>, n: N, d: Destructor)
    requires WellFormed(F) && F.loop == map[] && n !in F.up
    ensures WellFormed(Sprout(F, n, d))
    ensures forall x :: x in Sprout(F, n, d).up ==> Sprout(F, n, d).up[x] != Some(n)
  {
    var G := Sprout(F, n, d);
    ListsNew(F.up, F.kids, n);
    ListsNew(F.target, F.refs, n);
    ListsAgreeParents(F.up, F.kids);
    HandlesStay(F, G);
    forall x | x in G.up
      ensures G.up[x] != Some(n)
    {
      if x != n {
        assert ParentLives(F.up, x);
      }
    }
  }

  /** A new chunk closes no cycle. */
  lemma AllocKeepsGrounded<N>(F: Forest<N>, n: N, p: Option<N>, d: Destructor)
    requires WellFormed(F) && Grounded(F.up) && F.loop == map[] && n !in F.up && (p.Some? ==> ProperChunk(F, p.value))
    ensures Grounded(Alloc(F, n, p, d).up)
  {
    AllocKeeps(F, n, p, d);
    SproutKeeps(F, n, d);
    ListsAgreeParents(F.up, F.kids);
    var up := F.up[n := None];
    forall m | m in up
      ensures Ends(up, m)
    {
      NewEnds(F.up, n, m);
    }
    if p.Some? {
      ListsAgreeParents(Sprout(F, n, d).up, Sprout(F, n, d).kids);
      NobodyBelow(up, n, p.value);
      MoveKeepsGroundedIff(up, n, p.value);
      assert up[n := p] == F.up[n := p];
    }
  }

  lemma NewEnds<N>(up: map<N, Option<N>>, n: N, m: N)
    requires ParentsLive(up) && Grounded(up) && n !in up && m in up[n := None]
    ensures Ends(up[n := None], m)
  {
    var after := up[n := None];
    if m == n {
      assert Up(after, n, 1) == None;
    } else {
      assert Ends(up, m);
      var e: nat :| Up(up, m, e) == None;
      SameUntouched(up, after, m, e);
    }
  }

  /** Chunks whose whole line of ancestors is untouched keep it. */
  lemma {:induction false} SameUntouched<N>(up: map<N, Option<N>>, after: map<N, Option<N>>, m: N, k: nat)
    requires ParentsLive(up) && m in up
    requires forall x :: x in up ==> x in after && after[x] == up[x]
    ensures Up(after, m, k) == Up(up, m, k)
    decreases k
  {
    if k > 0 && up[m].Some? {
      assert ParentLives(up, m);
      SameUntouched(up, after, up[m].value, k - 1);
    }
  }

  /** A chunk without children is above itself only. */
  lemma {:induction false} NobodyBelow<N>(up: map<N, Option<N>>, n: N, m: N)
    requires forall x :: x in up ==> up[x] != Some(n)
    ensures Above(up, n, m) <==> m == n
  {
    AboveItself(up, n);
    if k: nat :| Up(up, m, k) == Some(n) {
      if k > 0 {
        UpAdd(up, m, k - 1, 1);
        assert false;
      }
    }
  }

  // ----- References -----

  lemma CiteKeeps<N>(F: Forest<N>, h: N, t: N)
    requires WellFormed(F) && F.loop == map[] && ProperChunk(F, h) && ProperChunk(F, t) && h != t
    requires F.kids[h] == [] && F.refs[h] == [] && F.destructor[h] == NoDestructor
    ensures WellFormed(Cite(F, h, t))
  {
    var G := Cite(F, h, t);
    ListsHook(F.target, F.refs, h, t);
    forall x | x in G.target && G.target[x].Some?
      ensures HandleIsLeaf(G, x)
    {
      assert x != h ==> HandleIsLeaf(F, x);
    }
  }

  lemma UnciteKeeps<N>(F: Forest<N>, h: N)
    requires WellFormed(F) && h in F.target && F.target[h].Some?
    ensures F.target[h].value in F.refs && WellFormed(Uncite(F, h))
  {
    assert Listed(F.target, F.refs, h);
    var G := Uncite(F, h);
    ListsCut(F.target, F.refs, h);
    assert HandleIsLeaf(F, h);
    assert F.target[F.target[h].value].Some? ==> HandleIsLeaf(F, F.target[h].value);
    HandlesStay(F, G);
    forall m | m in G.loop
      ensures BeingFreed(G, m)
    {
      assert BeingFreed(F, m);
      if F.loop[m].Some? {
        assert KeptParent(F, m, F.loop[m].value);
      }
    }
  }

  // ----- The parts of freeing -----

  /** Nobody has a chunk without children as a parent. */
  lemma Childless<N>(F: Forest<N>, n: N)
    requires ListsAgree(F.up, F.kids) && n in F.kids && F.kids[n] == []
    ensures forall x :: x in F.up ==> F.up[x] != Some(n)
  {
    forall x | x in F.up
      ensures F.up[x] != Some(n)
    {
      assert Listed(F.up, F.kids, x);
    }
  }

  /** Ancestors stay what they are when a childless root goes. */
  lemma {:induction false} UpWithout<N>(up: map<N, Option<N>>, n: N, m: N, k: nat)
    requires m != n && forall x :: x in up ==> up[x] != Some(n)
    ensures Up(up - {n}, m, k) == Up(up, m, k)
    decreases k
  {
    if k > 0 && m in up && up[m].Some? {
      UpWithout(up, n, up[m].value, k - 1);
    }
  }

  lemma AboveWithout<N>(up: map<N, Option<N>>, n: N, a: N, m: N)
    requires m != n && forall x :: x in up ==> up[x] != Some(n)
    ensures Above(up - {n}, a, m) <==> Above(up, a, m)
  {
    var after := up - {n};
    if k: nat :| Up(up, m, k) == Some(a) {
      UpWithout(up, n, m, k);
    }
    if k: nat :| Up(after, m, k) == Some(a) {
      UpWithout(up, n, m, k);
    }
  }

  lemma SeenWithout<N>(up: map<N, Option<N>>, n: N, a: N, m: N)
    requires m != n && forall x :: x in up ==> up[x] != Some(n)
    ensures Seen(up - {n}, a, m) <==> Seen(up, a, m)
  {
    var after := up - {n};
    if k: nat :| k < MAX_DEPTH && Up(up, m, k) == Some(a) {
      UpWithout(up, n, m, k);
    }
    if k: nat :| k < MAX_DEPTH && Up(after, m, k) == Some(a) {
      UpWithout(up, n, m, k);
    }
  }

  lemma ReleaseKeeps<N>(F: Forest<N>, n: N)
    requires WellFormed(F) && ProperChunk(F, n) && F.up[n].None? && F.kids[n] == [] && F.refs[n] == []
    requires forall m :: m in F.loop ==> F.loop[m] != Some(n)
    ensures WellFormed(Release(F, n))
  {
    var G := Release(F, n);
    Childless(F, n);
    ListsDrop(F.up, F.kids, n);
    ListsDrop(F.target, F.refs, n);
    HandlesStay(F, G);
    ReleaseKeepsLoop(F, n);
  }

  /** A childless chunk that goes is on no cycle. */
  lemma GroundedWithout<N>(up: map<N, Option<N>>, n: N)
    requires forall x :: x in up ==> up[x] != Some(n)
    ensures Grounded(up) ==> Grounded(up - {n})
    ensures Grounded(up - {n}) && n in up && (up[n].Some? ==> up[n].value in up) ==> Grounded(up)
  {
    var after := up - {n};
    if Grounded(up) {
      forall m | m in after
        ensures Ends(after, m)
      {
        assert Ends(up, m);
        var e: nat :| Up(up, m, e) == None;
        UpWithout(up, n, m, e);
      }
    }
    if Grounded(after) && n in up && (up[n].Some? ==> up[n].value in up) {
      forall m | m in up
        ensures Ends(up, m)
      {
        var x := if m == n then (if up[n].Some? then up[n].value else n) else m;
        if x == n {
          assert Up(up, n, 1) == None;
        } else {
          assert Ends(after, x);
          var e: nat :| Up(after, x, e) == None;
          UpWithout(up, n, x, e);
          if m == n {
            assert Up(up, n, e + 1) == None;
          }
        }
      }
    }
  }

  lemma ReleaseKeepsLoop<N>(F: Forest<N>, n: N)
    requires LoopAgrees(F) && forall x :: x in F.up ==> F.up[x] != Some(n)
    requires forall m :: m in F.loop ==> F.loop[m] != Some(n)
    ensures LoopAgrees(Release(F, n))
  {
    var G := Release(F, n);
    forall m | m in G.loop
      ensures BeingFreed(G, m)
    {
      assert BeingFreed(F, m);
      if G.loop[m].Some? && G.loop[m].value !in G.loop {
        var g := G.loop[m].value;
        assert g !in F.loop;
        forall r | r in G.loop
          ensures !Above(G.up, r, g)
        {
          AboveWithout(F.up, n, r, g);
        }
      }
    }
  }

  /** Nothing that is being freed depends on a handle without its target. */
  lemma UncitedIsClear<N>(F: Forest<N>, h: N)
    requires WellFormed(F) && h in F.target && F.target[h].Some?
    ensures F.target[h].value in F.refs && WellFormed(Uncite(F, h)) && ProperChunk(Uncite(F, h), h)
    ensures Uncite(F, h).up == F.up && h in F.up && h !in F.loop && h in F.kids && F.kids[h] == []
    ensures Uncite(F, h).refs[h] == []
    ensures Uncite(F, h).kids == F.kids && Uncite(F, h).loop == F.loop
    ensures forall m :: m in F.loop ==> ClearOf(Uncite(F, h), h, m) && F.loop[m] != Some(h)
  {
    assert HandleIsLeaf(F, h);
    UnciteKeeps(F, h);
    var G := Uncite(F, h);
    Childless(G, h);
    forall m | m in G.loop
      ensures ClearOf(G, h, m) && G.loop[m] != Some(h)
    {
      assert BeingFreed(F, m);
      if F.loop[m].Some? {
        NobodyBelow(G.up, h, F.loop[m].value);
      }
    }
  }

  lemma FreeHandleKeeps<N>(F: Forest<N>, h: N)
    requires WellFormed(F) && h in F.target && F.target[h].Some?
    ensures WellFormed(FreeHandle(F, h))
    ensures FreeHandle(F, h).up == F.up - {h}
  {
    UncitedIsClear(F, h);
    var G := Uncite(F, h);
    DetachKeeps(G, h);
    if G.up[h].Some? {
      assert Listed(G.up, G.kids, h);
    }
    assert F.up[h := None] - {h} == F.up - {h};
    ReleaseKeeps(Detach(G, h), h);
  }

  lemma BeginKeeps<N>(F: Forest<N>, n: N)
    requires WellFormed(F) && Freeable(F, n) && F.refs[n] == []
    ensures WellFormed(Begin(F, n)) && Begin(F, n).up == F.up[n := None]
  {
    var G := Begin(F, n);
    var D := Detach(F, n);
    FreeableIsClear(F, n);
    DetachKeeps(F, n);
    HandlesStay(D, G);
    forall m | m in G.loop
      ensures BeingFreed(G, m)
    {
      if m == n {
        BeginKeepsParent(F, n);
      } else {
        BeginKeepsOthers(F, n, m);
      }
    }
  }

  lemma BeginKeepsParent<N>(F: Forest<N>, n: N)
    requires WellFormed(F) && Freeable(F, n) && Begin(F, n).up == F.up[n := None]
    ensures ParentField(F, n).Some? ==> KeptParent(Begin(F, n), n, ParentField(F, n).value)
  {
    var G := Begin(F, n);
    if ParentField(F, n).Some? {
      var g := ParentField(F, n).value;
      ParentIsProper(F, n);
      AboveItself(F.up, n);
      if F.loop == map[] {
        SameBelow(F.up, n, None, g);
        assert Outside(G.up, G.loop, g);
      }
    }
  }

  lemma BeginKeepsOthers<N>(F: Forest<N>, n: N, m: N)
    requires WellFormed(F) && Freeable(F, n) && Begin(F, n).up == F.up[n := None]
    requires m in F.loop
    ensures BeingFreed(Begin(F, n), m)
  {
    var G := Begin(F, n);
    assert BeingFreed(F, m);
    if F.loop[m].Some? && F.loop[m].value !in G.loop {
      var g := F.loop[m].value;
      FreeableIsClear(F, n);
      assert ClearOf(F, n, m);
      OutsideElsewhere(F.up, F.loop, n, None, g);
      SameBelow(F.up, n, None, g);
    }
  }
}
