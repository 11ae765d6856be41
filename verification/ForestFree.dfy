/**
 Freeing a chunk and, recursively, its children (talloc/talloc.c:1110-1224, 1653-1684), with
 references, refusing destructors and the children that find another owner.
 */
module ForestFree {
  import opened Collections
  import opened Wrappers
  import opened Forests
  import opened ForestSteps

  // ----- What is doomed -----

  /** `x` is one of `tops` or below one of them. */
  ghost predicate Doomed<N>(up: map<N, Option<N>>, tops: set<N>, x: N) {
    exists r :: r in tops && Above(up, r, x)
  }

  /** From F to G, `x` has no more references and is not doomed anew. */
  ghost predicate Fades<N>(F: Forest<N>, G: Forest<N>, tops: set<N>, x: N) {
    && x in F.up && x in F.refs && x in G.refs && x in F.destructor && x in G.destructor
    && x in F.target && x in G.target
    && |G.refs[x]| <= |F.refs[x]| && (forall h :: h in G.refs[x] ==> h in F.refs[x])
    && G.destructor[x] == F.destructor[x] && G.target[x] == F.target[x]
    && (Doomed(G.up, tops, x) ==> Doomed(F.up, tops, x))
  }

  ghost predicate Settled<N>(F: Forest<N>, G: Forest<N>, tops: set<N>) {
    && G.up.Keys <= F.up.Keys
    && G.loop == F.loop
    && forall x {:trigger Fades(F, G, tops, x)} :: x in G.up ==> Fades(F, G, tops, x)
  }

  lemma SettledTrans<N>(F: Forest<N>, G: Forest<N>, H: Forest<N>, tops: set<N>)
    requires Settled(F, G, tops) && Settled(G, H, tops)
    ensures Settled(F, H, tops)
  {
    forall x | x in H.up
      ensures Fades(F, H, tops, x)
    {
      assert Fades(G, H, tops, x) && Fades(F, G, tops, x);
    }
  }

  lemma HandleAlive<N>(F: Forest<N>, x: N, h: N)
    requires WellFormed(F) && x in F.refs && h in F.refs[x]
    ensures h in F.target && F.target[h] == Some(x) && h in F.up && h != x
  {
    assert HandleIsLeaf(F, h);
  }

  // ----- Doom under the steps -----

  lemma DoomedElsewhere<N>(up: map<N, Option<N>>, tops: set<N>, c: N, p: Option<N>, x: N)
    requires c in up && Doomed(up, tops, c) && Doomed(up[c := p], tops, x)
    ensures Doomed(up, tops, x)
  {
    var after := up[c := p];
    if Above(up, c, x) {
      var r :| r in tops && Above(up, r, c);
      AboveTrans(up, r, c, x);
    } else {
      var r :| r in tops && Above(after, r, x);
      AboveElsewhere(up, c, p, r, x);
    }
  }

  lemma DoomedWithout<N>(up: map<N, Option<N>>, tops: set<N>, n: N, x: N)
    requires x != n && (forall y :: y in up ==> up[y] != Some(n)) && Doomed(up - {n}, tops, x)
    ensures Doomed(up, tops, x)
  {
    var after := up - {n};
    var r :| r in tops && Above(after, r, x);
    AboveWithout(up, n, r, x);
  }

  lemma DoomedKid<N>(up: map<N, Option<N>>, tops: set<N>, c: N, x: N)
    requires c in up && up[c].Some? && up[c].value in tops
    ensures Doomed(up, tops + {c}, x) <==> Doomed(up, tops, x)
    ensures Doomed(up, tops, c)
  {
    AboveItself(up, up[c].value);
    AboveStep(up, up[c].value, c);
    if Above(up, c, x) {
      AboveTrans(up, up[c].value, c, x);
    }
  }

  // ----- Measure -----

  /** The chunks that are not being freed yet. */
  ghost function Live<N>(F: Forest<N>): nat {
    |F.up.Keys - F.loop.Keys|
  }

  // ----- The destructor -----

  ghost function Ran<N>(F: Forest<N>, n: N): Forest<N>
    requires n in F.destructor
  {
    if F.destructor[n] == NoDestructor then F else F.(ran := F.ran + [n])
  }

  lemma RanKeeps<N>(F: Forest<N>, n: N, tops: set<N>)
    requires WellFormed(F) && n in F.destructor
    ensures WellFormed(Ran(F, n))
    ensures Freeable(F, n) ==> Freeable(Ran(F, n), n)
    ensures Settled(F, Ran(F, n), tops)
  {
    var G := Ran(F, n);
    HandlesStay(F, G);
    forall m | m in G.loop
      ensures BeingFreed(G, m)
    {
      assert BeingFreed(F, m);
      if F.loop[m].Some? {
        assert KeptParent(F, m, F.loop[m].value);
      }
    }
    forall x | x in G.up
      ensures Fades(F, G, tops, x)
    {
    }
  }

  // ----- The reference branch -----

  /** What freeing a handle leaves. */
  lemma HandleGone<N>(F: Forest<N>, h: N)
    requires WellFormed(F) && h in F.target && F.target[h].Some?
    ensures F.target[h].value in F.refs && h in F.refs[F.target[h].value] && NoDuplicates(F.refs[F.target[h].value])
    ensures WellFormed(FreeHandle(F, h)) && FreeHandle(F, h).up == F.up - {h}
    ensures FreeHandle(F, h).refs == F.refs[F.target[h].value := Without(F.refs[F.target[h].value], h)] - {h}
    ensures FreeHandle(F, h).target == F.target - {h} && FreeHandle(F, h).destructor == F.destructor - {h}
    ensures FreeHandle(F, h).loop == F.loop && FreeHandle(F, h).ran == F.ran
    ensures h in F.up && h !in F.loop && F.kids[h] == [] && F.refs[h] == []
  {
    hide FreeHandle, Grounded;
    FreeHandleKeeps(F, h);
    HandleFields(F, h);
    assert HandleIsLeaf(F, h);
  }

  lemma HandleFields<N>(F: Forest<N>, h: N)
    requires WellFormed(F) && h in F.target && F.target[h].Some?
    ensures F.target[h].value in F.refs && h in F.refs[F.target[h].value] && NoDuplicates(F.refs[F.target[h].value])
    ensures FreeHandle(F, h).refs == F.refs[F.target[h].value := Without(F.refs[F.target[h].value], h)] - {h}
    ensures FreeHandle(F, h).target == F.target - {h} && FreeHandle(F, h).destructor == F.destructor - {h}
    ensures FreeHandle(F, h).loop == F.loop && FreeHandle(F, h).ran == F.ran
  {
    hide Grounded, BeingFreed;
    assert Listed(F.target, F.refs, h);
    assert HandleIsLeaf(F, h);
  }

  lemma HandleGoneFades<N>(F: Forest<N>, h: N, tops: set<N>, x: N)
    requires WellFormed(F) && h in F.target && F.target[h].Some? && x in F.up && x != h
    ensures Fades(F, FreeHandle(F, h), tops, x)
  {
    HandleGone(F, h);
    var G := FreeHandle(F, h);
    if Doomed(G.up, tops, x) {
      Childless(F, h);
      DoomedWithout(F.up, tops, h, x);
    }
    var t := F.target[h].value;
    if x == t {
      WithoutMembers(F.refs[t], h);
      forall k | k in G.refs[x]
        ensures k in F.refs[x]
      {
        WithoutMember(F.refs[t], h, k);
      }
    }
  }

  lemma FreeHandleSettles<N>(F: Forest<N>, h: N, tops: set<N>)
    requires WellFormed(F) && h in F.target && F.target[h].Some?
    ensures WellFormed(FreeHandle(F, h)) && FreeHandle(F, h).up == F.up - {h}
    ensures Settled(F, FreeHandle(F, h), tops)
    ensures Live(FreeHandle(F, h)) < Live(F)
  {
    HandleGone(F, h);
    var G := FreeHandle(F, h);
    forall x | x in G.up
      ensures Fades(F, G, tops, x)
    {
      HandleGoneFades(F, h, tops, x);
    }
    Smaller(G.up.Keys - G.loop.Keys, F.up.Keys - F.loop.Keys, h);
  }

  // ----- Freeing -----

  ghost predicate CanFree<N>(F: Forest<N>, n: N) {
    WellFormed(F) && Freeable(F, n)
  }

  ghost predicate CanFreeKids<N>(F: Forest<N>, n: N) {
    WellFormed(F) && n in F.loop && n in F.kids && n in F.up
  }

  /**
   What became of an operation: the hierarchy, whether it reports success, and the chunks that were
   given to an owner below themselves, each of which is on a cycle then.
   */
  datatype Outcome<N> = Done(after: Forest<N>, ok: bool, lost: seq<N>)

  /** Nobody but descendants, no more than MAX_DEPTH levels deep, holds a reference; the destructor agrees. */
  ghost predicate Undisputed<N>(F: Forest<N>, n: N) {
    && n in F.refs && n in F.destructor && F.destructor[n] != Refuses
    && forall h :: h in F.refs[n] ==> Seen(F.up, n, h)
  }

  /** Freeing destroys the chunk exactly when it is undisputed; else the chunk stays where it is. */
  ghost predicate Freed<N>(F: Forest<N>, n: N, G: Forest<N>, ok: bool) {
    && WellFormed(G) && Settled(F, G, F.loop.Keys + {n})
    && (ok <==> Undisputed(F, n))
    && (ok ==> n !in G.up && Live(G) < Live(F))
    && (!ok ==> StillHeld(F, n, G))
  }

  /** A chunk that is not freed has lost references, or its destructor refused. */
  ghost predicate StillHeld<N>(F: Forest<N>, n: N, G: Forest<N>) {
    && WellFormed(F) && n in F.up && n in F.refs && n in F.destructor && n in G.up && G.up[n] == F.up[n]
    && if F.refs[n] == [] then G == Ran(F, n)
       else Stripped(F, n, G) && Live(G) < Live(F)
  }

  /** From F to G only references of `n` are gone, the most recent one among them. */
  ghost predicate Stripped<N>(F: Forest<N>, n: N, G: Forest<N>)
    requires n in F.refs && F.refs[n] != []
  {
    && G.loop == F.loop && F.refs[n][0] !in G.up
    && (forall x :: x in F.up ==> x in G.up || x in F.refs[n])
    && (forall x :: x in G.up ==> x in F.up && G.up[x] == F.up[x])
  }

  ghost predicate KidsFreed<N>(F: Forest<N>, n: N, G: Forest<N>) {
    && WellFormed(G) && Settled(F, G, F.loop.Keys)
    && n in G.kids && G.kids[n] == [] && Live(G) <= Live(F)
  }

  /** The owner of an abandoned child: the holder of its most recent reference, else the kept parent. */
  ghost function Heir<N>(F: Forest<N>, n: N, c: N): Option<N>
    requires n in F.loop && c in F.refs
  {
    if F.refs[c] != [] && F.refs[c][0] in F.up && F.up[F.refs[c][0]].Some? then F.up[F.refs[c][0]]
    else F.loop[n]
  }

  /** _tc_free_internal. */
  ghost function Free<N>(F: Forest<N>, n: N): (r: Outcome<N>)
    requires CanFree(F, n)
    ensures Freed(F, n, r.after, r.ok)
    decreases Live(F), 0
  {
    hide Freed, Undisputed, Settled, KidsFreed, Above, Seen;
    if F.refs[n] != [] then
      var h := F.refs[n][0];
      FirstReference(F, n, h);
      var G := FreeHandle(F, h);
      if Seen(F.up, n, h) then
        ReferenceFromBelow(F, n, h, G);
        var r := Free(G, n);
        FreedInTwoSteps(F, n, h, G, r.after, r.ok);
        r
      else Done(G, false, [])
    else if F.destructor[n] == Refuses then
      RefusalFrees(F, n);
      Done(Ran(F, n), false, [])
    else
      BeginSettles(F, n);
      var K := FreeKids(Begin(Ran(F, n), n), n);
      ReleaseSettles(F, n, K.after);
      Done(Release(K.after, n), true, K.lost)
  }

  /** _tc_free_children_internal. */
  ghost function FreeKids<N>(F: Forest<N>, n: N): (r: Outcome<N>)
    requires CanFreeKids(F, n)
    ensures KidsFreed(F, n, r.after) && r.ok
    decreases Live(F), |F.kids[n]| + 1
  {
    assert BeingFreed(F, n);
    if F.kids[n] == [] then
      SettledItself(F, F.loop.Keys);
      Done(F, true, [])
    else
      var c := F.kids[n][0];
      KidIsFreeable(F, n);
      var r := if F.target[c].Some? then Done(FreeHandle(F, c), true, []) else Free(F, c);
      var A := r.after;
      KidSettled(F, n, A, r.ok);
      if r.ok then
        var K := FreeKids(A, n);
        SettledTrans(F, A, K.after, F.loop.Keys);
        Done(K.after, true, r.lost + K.lost)
      else
        HeirFits(F, n, A);
        var p := Heir(F, n, c);
        var B := Steal(A, c, p);
        AbandonSettles(F, n, A, c, p);
        AbandonShrinks(F, n, A, c, p);
        var K := FreeKids(B, n);
        SettledTrans(F, B, K.after, F.loop.Keys);
        Done(K.after, true, r.lost + (if IsBelow(A.up, c, p) then [c] else []) + K.lost)
  }

  lemma SettledItself<N>(F: Forest<N>, tops: set<N>)
    requires WellFormed(F)
    ensures Settled(F, F, tops)
  {
    forall x | x in F.up
      ensures Fades(F, F, tops, x)
    {
    }
  }

  lemma FirstReference<N>(F: Forest<N>, n: N, h: N)
    requires CanFree(F, n) && F.refs[n] != [] && h == F.refs[n][0]
    ensures h in F.target && F.target[h] == Some(n) && Live(FreeHandle(F, h)) < Live(F)
    ensures !Seen(F.up, n, h) ==> Freed(F, n, FreeHandle(F, h), false)
  {
    assert h in F.refs[n];
    HandleAlive(F, n, h);
    HandleGone(F, h);
    FreeHandleSettles(F, h, F.loop.Keys + {n});
  }

  lemma ReferenceFromBelow<N>(F: Forest<N>, n: N, h: N, G: Forest<N>)
    requires CanFree(F, n) && F.refs[n] != [] && h == F.refs[n][0] && Seen(F.up, n, h)
    requires h in F.target && F.target[h] == Some(n) && G == FreeHandle(F, h)
    ensures CanFree(G, n) && Settled(F, G, F.loop.Keys + {n}) && G.loop == F.loop && G.up == F.up - {h}
    ensures Undisputed(G, n) <==> Undisputed(F, n)
    ensures forall k :: k in G.refs[n] ==> k in F.refs[n]
  {
    hide Undisputed, Settled, Seen, Above;
    assert h in F.refs[n];
    HandleAlive(F, n, h);
    HandleGone(F, h);
    FreeHandleSettles(F, h, F.loop.Keys + {n});
    Childless(F, h);
    StaysFreeable(F, n, h, G);
    StaysUndisputed(F, n, h, G);
  }

  lemma StaysFreeable<N>(F: Forest<N>, n: N, h: N, G: Forest<N>)
    requires Freeable(F, n) && n != h && forall y :: y in F.up ==> F.up[y] != Some(h)
    requires G.up == F.up - {h} && G.loop == F.loop && G.target == F.target - {h}
    ensures Freeable(G, n)
  {
    if F.up[n].Some? {
      AboveWithout(F.up, h, n, F.up[n].value);
    }
  }

  lemma StaysUndisputed<N>(F: Forest<N>, n: N, h: N, G: Forest<N>)
    requires n in F.refs && n in F.destructor && h in F.refs[n] && NoDuplicates(F.refs[n]) && Seen(F.up, n, h) && n != h
    requires n in G.refs && n in G.destructor && G.refs[n] == Without(F.refs[n], h) && G.up == F.up - {h}
    requires G.destructor[n] == F.destructor[n] && forall y :: y in F.up ==> F.up[y] != Some(h)
    ensures Undisputed(G, n) <==> Undisputed(F, n)
    ensures forall k :: k in G.refs[n] ==> k in F.refs[n]
  {
    forall k | k in F.refs[n]
      ensures Seen(F.up, n, k) <==> k == h || Seen(G.up, n, k)
    {
      if k != h {
        SeenWithout(F.up, h, n, k);
      }
    }
    forall k
      ensures k in G.refs[n] <==> k in F.refs[n] && k != h
    {
      WithoutMember(F.refs[n], h, k);
    }
  }

  lemma FreedInTwoSteps<N>(F: Forest<N>, n: N, h: N, A: Forest<N>, G: Forest<N>, ok: bool)
    requires CanFree(F, n) && F.refs[n] != [] && h == F.refs[n][0] && Seen(F.up, n, h)
    requires h in F.target && F.target[h].Some? && A == FreeHandle(F, h) && Freed(A, n, G, ok)
    ensures Freed(F, n, G, ok)
  {
    hide Seen, FreeHandle, Freed, Settled, Undisputed, Above;
    FirstReference(F, n, h);
    ReferenceFromBelow(F, n, h, A);
    FreedAgain(F, n, h, A, G, ok);
  }

  lemma FreedAgain<N>(F: Forest<N>, n: N, h: N, A: Forest<N>, G: Forest<N>, ok: bool)
    requires WellFormed(F) && n in F.up && n in F.refs && n in F.destructor && n in A.refs && n in A.up && n != h
    requires F.refs[n] != [] && h == F.refs[n][0] && A.up == F.up - {h} && A.loop == F.loop && Live(A) < Live(F)
    requires (Undisputed(A, n) <==> Undisputed(F, n)) && forall k :: k in A.refs[n] ==> k in F.refs[n]
    requires Settled(F, A, F.loop.Keys + {n}) && Freed(A, n, G, ok)
    ensures Freed(F, n, G, ok)
  {
    hide Settled, WellFormed, Undisputed, Freeable;
    SettledTrans(F, A, G, F.loop.Keys + {n});
  }

  lemma RefusalFrees<N>(F: Forest<N>, n: N)
    requires CanFree(F, n) && F.refs[n] == [] && F.destructor[n] == Refuses
    ensures Freed(F, n, Ran(F, n), false)
  {
    RanKeeps(F, n, F.loop.Keys + {n});
  }

  /** The state in which the children of `n` are freed. */
  lemma BeginSettles<N>(F: Forest<N>, n: N)
    requires CanFree(F, n) && F.refs[n] == []
    ensures WellFormed(Ran(F, n))
    ensures CanFreeKids(Begin(Ran(F, n), n), n) && Live(Begin(Ran(F, n), n)) < Live(F)
    ensures Begin(Ran(F, n), n).up == F.up[n := None] && Begin(Ran(F, n), n).loop.Keys == F.loop.Keys + {n}
  {
    RanKeeps(F, n, F.loop.Keys + {n});
    BeginIsFreeing(Ran(F, n), n);
  }

  lemma BeginIsFreeing<N>(F: Forest<N>, n: N)
    requires CanFree(F, n) && F.refs[n] == []
    ensures CanFreeKids(Begin(F, n), n) && Live(Begin(F, n)) < Live(F)
    ensures Begin(F, n).up == F.up[n := None] && Begin(F, n).loop.Keys == F.loop.Keys + {n}
  {
    BeginKeeps(F, n);
    BeginIsLive(F, Begin(F, n), n, ParentField(F, n));
    assert BeingFreed(Begin(F, n), n);
  }

  lemma BeginIsLive<N>(F: Forest<N>, B: Forest<N>, n: N, kept: Option<N>)
    requires n in F.up && n !in F.loop && B.up == F.up[n := None] && B.loop == F.loop[n := kept]
    ensures Live(B) < Live(F) && B.loop.Keys == F.loop.Keys + {n}
  {
    Smaller(B.up.Keys - B.loop.Keys, F.up.Keys - F.loop.Keys, n);
  }

  lemma ReleaseSettles<N>(F: Forest<N>, n: N, K: Forest<N>)
    requires CanFree(F, n) && F.refs[n] == [] && WellFormed(Ran(F, n)) && F.destructor[n] != Refuses
    requires KidsFreed(Begin(Ran(F, n), n), n, K)
    requires Begin(Ran(F, n), n).up == F.up[n := None]
    requires Live(Begin(Ran(F, n), n)) < Live(F)
    ensures Freed(F, n, Release(K, n), true)
  {
    BegunFields(F, n);
    ReleaseAfter(F, Begin(Ran(F, n), n), n, ParentField(F, n), K);
  }

  lemma ReleaseAfter<N>(F: Forest<N>, B: Forest<N>, n: N, kept: Option<N>, K: Forest<N>)
    requires WellFormed(F) && Freeable(F, n) && F.refs[n] == [] && F.destructor[n] != Refuses
    requires B.up == F.up[n := None] && B.loop == F.loop[n := kept]
    requires B.refs == F.refs && B.target == F.target && B.destructor == F.destructor
    requires KidsFreed(B, n, K) && Live(B) < Live(F)
    ensures Freed(F, n, Release(K, n), true)
  {
    ReleasedLoop(F, n, kept, K);
    ReleasedWellFormed(F, n, K);
    Childless(K, n);
    ReleasedSettled(F, B, K, n);
    ReleasedLive(K, n);
  }

  lemma ReleasedLoop<N>(F: Forest<N>, n: N, kept: Option<N>, K: Forest<N>)
    requires n !in F.loop && K.loop == F.loop[n := kept]
    ensures Release(K, n).loop == F.loop && K.loop.Keys == F.loop.Keys + {n}
    ensures forall m :: m in F.loop ==> m != n && K.loop[m] == F.loop[m]
  {
  }

  lemma BegunFields<N>(F: Forest<N>, n: N)
    requires n in F.destructor && n in F.up && ListsAgree(F.up, F.kids) && ListsAgree(Ran(F, n).up, Ran(F, n).kids)
    ensures Begin(Ran(F, n), n).refs == F.refs && Begin(Ran(F, n), n).target == F.target
    ensures Begin(Ran(F, n), n).destructor == F.destructor
    ensures Begin(Ran(F, n), n).loop == F.loop[n := ParentField(F, n)]
  {
  }

  lemma ReleasedLive<N>(K: Forest<N>, n: N)
    requires n in K.loop
    ensures Live(Release(K, n)) == Live(K)
  {
    assert Release(K, n).up.Keys - Release(K, n).loop.Keys == K.up.Keys - K.loop.Keys;
  }

  lemma ReleasedSettled<N>(F: Forest<N>, B: Forest<N>, K: Forest<N>, n: N)
    requires n in F.up && n !in F.loop && n in B.loop
    requires B.up == F.up[n := None] && B.refs == F.refs && B.destructor == F.destructor && B.target == F.target
    requires B.loop.Keys == F.loop.Keys + {n} && Settled(B, K, B.loop.Keys)
    requires Release(K, n).loop == F.loop
    requires forall y :: y in K.up ==> K.up[y] != Some(n)
    ensures Settled(F, Release(K, n), F.loop.Keys + {n})
  {
    var G := Release(K, n);
    var tops := F.loop.Keys + {n};
    forall x | x in G.up
      ensures Fades(F, G, tops, x)
    {
      assert Fades(B, K, tops, x);
      ReleasedFades(F, B, K, n, tops, x);
    }
  }

  lemma ReleasedWellFormed<N>(F: Forest<N>, n: N, K: Forest<N>)
    requires WellFormed(F) && Freeable(F, n) && WellFormed(K) && n in K.kids && K.kids[n] == []
    requires n in K.loop && K.loop.Keys == F.loop.Keys + {n}
    requires forall m :: m in F.loop ==> m != n && K.loop[m] == F.loop[m]
    ensures WellFormed(Release(K, n))
  {
    assert BeingFreed(K, n);
    forall m | m in K.loop
      ensures K.loop[m] != Some(n)
    {
      if m != n {
        FreeableIsNotKept(F, n, m);
      }
    }
    ReleaseKeeps(K, n);
  }

  lemma ReleasedFades<N>(F: Forest<N>, B: Forest<N>, K: Forest<N>, n: N, tops: set<N>, x: N)
    requires n in F.up && n in tops && x in K.up && x != n
    requires B.up == F.up[n := None] && B.refs == F.refs && B.destructor == F.destructor && B.target == F.target
    requires Fades(B, K, tops, x) && forall y :: y in K.up ==> K.up[y] != Some(n)
    ensures Fades(F, Release(K, n), tops, x)
  {
    AboveItself(F.up, n);
    if Doomed(Release(K, n).up, tops, x) {
      DoomedWithout(K.up, tops, n, x);
      DoomedElsewhere(F.up, tops, n, None, x);
    }
  }

  lemma KidIsFreeable<N>(F: Forest<N>, n: N)
    requires CanFreeKids(F, n) && F.kids[n] != []
    ensures F.kids[n][0] in F.up && F.kids[n][0] in F.target
    ensures F.up[F.kids[n][0]] == Some(n) && F.kids[n][0] !in F.loop
    ensures F.target[F.kids[n][0]].None? ==> CanFree(F, F.kids[n][0])
  {
    var c := F.kids[n][0];
    assert c in F.kids[n];
    assert c in F.loop ==> BeingFreed(F, c);
  }

  /** What became of the first child of a chunk being freed. */
  ghost predicate KidFreed<N>(F: Forest<N>, n: N, A: Forest<N>, ok: bool) {
    && CanFreeKids(F, n) && F.kids[n] != [] && F.kids[n][0] in F.target
    && if F.target[F.kids[n][0]].Some? then A == FreeHandle(F, F.kids[n][0]) && ok
       else Freed(F, F.kids[n][0], A, ok)
  }

  lemma KidSettled<N>(F: Forest<N>, n: N, A: Forest<N>, ok: bool)
    requires KidFreed(F, n, A, ok)
    ensures CanFreeKids(A, n) && Settled(F, A, F.loop.Keys)
    ensures ok ==> Live(A) < Live(F)
  {
    var c := F.kids[n][0];
    KidIsFreeable(F, n);
    if F.target[c].Some? {
      FreeHandleSettles(F, c, F.loop.Keys);
    } else {
      SettledForParent(F, A, c);
    }
    assert BeingFreed(A, n);
  }

  lemma SettledForParent<N>(F: Forest<N>, A: Forest<N>, c: N)
    requires c in F.up && F.up[c].Some? && F.up[c].value in F.loop && Settled(F, A, F.loop.Keys + {c})
    ensures Settled(F, A, F.loop.Keys)
  {
    forall x | x in A.up
      ensures Fades(F, A, F.loop.Keys, x)
    {
      assert Fades(F, A, F.loop.Keys + {c}, x);
      DoomedKid(F.up, F.loop.Keys, c, x);
    }
  }

  lemma HeirFits<N>(F: Forest<N>, n: N, A: Forest<N>)
    requires KidFreed(F, n, A, false)
    ensures F.kids[n][0] in A.up && A.up[F.kids[n][0]] == Some(n) && WellFormed(A)
    ensures F.kids[n][0] in F.refs
    ensures Heir(F, n, F.kids[n][0]).Some? ==> ProperChunk(A, Heir(F, n, F.kids[n][0]).value)
    ensures IsBelow(A.up, F.kids[n][0], Heir(F, n, F.kids[n][0])) <==> Dangling(F, F.kids[n][0])
  {
    var c := F.kids[n][0];
    KidIsFreeable(F, n);
    KidSettled(F, n, A, false);
    if F.refs[c] != [] {
      assert F.refs[c][0] in F.refs[c];
      HandleAlive(F, c, F.refs[c][0]);
      if F.up[F.refs[c][0]].Some? {
        HolderFits(F, c, A);
      }
    }
    if F.loop[n].Some? {
      KeptParentFits(A, n, c);
    }
  }

  /**
   The most recent reference of `c` is held by a chunk strictly below `c`, while another reference is
   held from elsewhere or the destructor refuses.
   */
  ghost predicate Dangling<N>(F: Forest<N>, c: N) {
    && c in F.refs && F.refs[c] != [] && F.refs[c][0] in F.up
    && IsBelow(F.up, c, F.up[F.refs[c][0]]) && !Undisputed(F, c)
  }

  lemma HolderFits<N>(F: Forest<N>, c: N, A: Forest<N>)
    requires WellFormed(F) && WellFormed(A) && c in F.refs && F.refs[c] != [] && StillHeld(F, c, A)
    requires Settled(F, A, F.loop.Keys + {c})
    requires F.refs[c][0] in F.up && F.up[F.refs[c][0]].Some?
    ensures ProperChunk(A, F.up[F.refs[c][0]].value)
    ensures Above(A.up, c, F.up[F.refs[c][0]].value) <==> Above(F.up, c, F.up[F.refs[c][0]].value)
  {
    var h := F.refs[c][0];
    var o := F.up[h].value;
    assert h in F.refs[c];
    HandleAlive(F, c, h);
    ParentIsProper(F, h);
    if o in F.refs[c] {
      HandleAlive(F, c, o);
    }
    assert Fades(F, A, F.loop.Keys + {c}, o);
    ListsAgreeParents(A.up, A.kids);
    SameAncestors(F.up, A.up, c, o);
  }

  /** With some chunks gone and no parent changed, the walk up from a chunk that is left is the same. */
  lemma SameAncestors<N>(up: map<N, Option<N>>, after: map<N, Option<N>>, a: N, x: N)
    requires ParentsLive(after) && x in after && forall y :: y in after ==> y in up && after[y] == up[y]
    ensures Above(after, a, x) <==> Above(up, a, x)
  {
    if k: nat :| Up(after, x, k) == Some(a) {
      SameUntouched(after, up, x, k);
    }
    if k: nat :| Up(up, x, k) == Some(a) {
      SameUntouched(after, up, x, k);
    }
  }

  lemma KeptParentFits<N>(A: Forest<N>, n: N, c: N)
    requires LoopAgrees(A) && n in A.loop && A.loop[n].Some? && c in A.up && A.up[c] == Some(n)
    ensures ProperChunk(A, A.loop[n].value) && !Above(A.up, c, A.loop[n].value)
  {
    var g := A.loop[n].value;
    assert BeingFreed(A, n);
    AboveItself(A.up, n);
    AboveStep(A.up, n, c);
    if g in A.loop {
      assert BeingFreed(A, g);
      AboveRoot(A.up, c, g);
    } else if Above(A.up, c, g) {
      AboveTrans(A.up, n, c, g);
      assert false;
    }
  }

  lemma StealSettles<N>(A: Forest<N>, c: N, p: Option<N>, tops: set<N>)
    requires WellFormed(A) && c in A.up && (p.Some? ==> p.value in A.up && p.value != c)
    requires Steal(A, c, p).up == A.up[c := p] && A.up[c].Some? && A.up[c].value in tops
    ensures Settled(A, Steal(A, c, p), tops)
  {
    var B := Steal(A, c, p);
    DoomedKid(A.up, tops, c, c);
    forall x | x in B.up
      ensures Fades(A, B, tops, x)
    {
      if Doomed(B.up, tops, x) {
        DoomedElsewhere(A.up, tops, c, p, x);
      }
    }
  }

  /** The child and its heir when the parent's turn comes. */
  ghost predicate Abandoning<N>(F: Forest<N>, n: N, A: Forest<N>, c: N, p: Option<N>) {
    && KidFreed(F, n, A, false) && c == F.kids[n][0] && c in F.refs && p == Heir(F, n, c)
    && WellFormed(A) && c in A.up && A.up[c] == Some(n)
    && (p.Some? ==> ProperChunk(A, p.value))
  }

  lemma AbandonSettles<N>(F: Forest<N>, n: N, A: Forest<N>, c: N, p: Option<N>)
    requires Abandoning(F, n, A, c, p)
    ensures CanFreeKids(Steal(A, c, p), n) && Settled(F, Steal(A, c, p), F.loop.Keys)
  {
    var B := Steal(A, c, p);
    KidIsFreeable(F, n);
    KidSettled(F, n, A, false);
    assert Fades(F, A, F.loop.Keys, c);
    if p != Some(c) {
      AbandonKeeps(A, n, c, p);
      StealSettles(A, c, p, F.loop.Keys);
      SettledTrans(F, A, B, F.loop.Keys);
    }
    assert BeingFreed(B, n);
  }

  lemma AbandonKeeps<N>(A: Forest<N>, n: N, c: N, p: Option<N>)
    requires WellFormed(A) && n in A.loop && c in A.up && c !in A.loop && A.up[c] == Some(n)
    requires c in A.target && A.target[c].None?
    requires p.Some? ==> ProperChunk(A, p.value) && p.value != c
    ensures WellFormed(Steal(A, c, p)) && Steal(A, c, p).up == A.up[c := p]
  {
    FreeableIsClear(A, c);
    StealKeeps(A, c, p);
  }

  /** Either a reference is gone, or the child has left its parent for good. */
  lemma AbandonShrinks<N>(F: Forest<N>, n: N, A: Forest<N>, c: N, p: Option<N>)
    requires Abandoning(F, n, A, c, p)
    ensures Live(Steal(A, c, p)) <= Live(F) && n in Steal(A, c, p).kids
    ensures Live(Steal(A, c, p)) == Live(F) ==> |Steal(A, c, p).kids[n]| < |F.kids[n]|
  {
    StealIsLive(A, c, p);
    if F.refs[c] != [] {
      KidSettled(F, n, A, false);
    } else {
      RefusedLeaves(F, n, A, c, p);
    }
  }

  lemma StealIsLive<N>(A: Forest<N>, c: N, p: Option<N>)
    requires ListsAgree(A.up, A.kids) && c in A.up && (p.Some? ==> p.value in A.up)
    ensures Live(Steal(A, c, p)) == Live(A) && Steal(A, c, p).kids.Keys == A.kids.Keys
  {
    hide Detach, Attach, ListsAgree, ParentField;
    ListsAgreeDetach(A, c);
    DetachIsLive(A, c);
    if p.Some? {
      AttachIsLive(Detach(A, c), c, p.value);
    }
  }

  lemma DetachIsLive<N>(A: Forest<N>, c: N)
    requires ListsAgree(A.up, A.kids) && c in A.up
    ensures Detach(A, c).up.Keys == A.up.Keys && Detach(A, c).kids.Keys == A.kids.Keys
    ensures Detach(A, c).loop == A.loop
  {
    assert Listed(A.up, A.kids, c);
  }

  lemma AttachIsLive<N>(A: Forest<N>, c: N, p: N)
    requires c in A.up && p in A.kids
    ensures Attach(A, c, p).up.Keys == A.up.Keys && Attach(A, c, p).kids.Keys == A.kids.Keys
    ensures Attach(A, c, p).loop == A.loop
  {
  }

  lemma RefusedLeaves<N>(F: Forest<N>, n: N, A: Forest<N>, c: N, p: Option<N>)
    requires Abandoning(F, n, A, c, p) && F.refs[c] == []
    ensures A.up == F.up && A.loop == F.loop
    ensures n in Steal(A, c, p).kids && |Steal(A, c, p).kids[n]| < |F.kids[n]|
  {
    assert A == Ran(F, c) && p == F.loop[n];
    assert BeingFreed(F, n);
    assert c in F.kids[n];
    assert c in F.loop ==> BeingFreed(F, c);
    AboveItself(A.up, c);
    if p.Some? {
      KeptParentFits(A, n, c);
    }
    KidLeaves(A, n, c, p);
  }

  lemma KidLeaves<N>(A: Forest<N>, n: N, c: N, p: Option<N>)
    requires ListsAgree(A.up, A.kids) && n in A.kids && A.kids[n] != [] && A.kids[n][0] == c
    requires c in A.up && c !in A.loop && p != Some(n) && p != Some(c) && (p.Some? ==> p.value in A.up)
    ensures n in Steal(A, c, p).kids && |Steal(A, c, p).kids[n]| < |A.kids[n]|
  {
    assert c in A.kids[n] && NoDuplicates(A.kids[n]);
    assert A.up[c] == Some(n);
    WithoutMembers(A.kids[n], c);
  }

  // ----- One turn of the loop over the children -----

  /** What a turn leaves of a hierarchy whose first child is the chunk `c`. */
  ghost function AfterTurn<N>(F: Forest<N>, n: N, c: N): Forest<N>
    requires CanFreeKids(F, n) && F.kids[n] != [] && c == F.kids[n][0] && CanFree(F, c)
  {
    var r := Free(F, c);
    if r.ok then r.after
    else
      KidIsFreeable(F, n);
      HeirFits(F, n, r.after);
      Steal(r.after, c, Heir(F, n, c))
  }

  /** A child that was not freed has only lost references. */
  lemma HeldIsGrounded<N>(F: Forest<N>, c: N, A: Forest<N>)
    requires StillHeld(F, c, A) && WellFormed(A)
    ensures Grounded(F.up) ==> Grounded(A.up)
  {
    if Grounded(F.up) {
      ListsAgreeParents(A.up, A.kids);
      forall x | x in A.up
        ensures Ends(A.up, x)
      {
        assert Ends(F.up, x);
        var e: nat :| Up(F.up, x, e) == None;
        SameUntouched(A.up, F.up, x, e);
      }
    }
  }

  /**
   One turn of the loop, decided on the state before it: a hierarchy without cycles has one after the
   child was given away exactly when the child is dangling, and a dangling child is given away.
   */
  lemma TurnKeepsIff<N>(F: Forest<N>, n: N, c: N)
    requires CanFreeKids(F, n) && F.kids[n] != [] && c == F.kids[n][0] && c in F.target && F.target[c].None?
    requires CanFree(F, c)
    ensures CanFreeKids(AfterTurn(F, n, c), n)
    ensures FreeKids(F, n).after == FreeKids(AfterTurn(F, n, c), n).after
    ensures FreeKids(F, n).lost
         == Free(F, c).lost + (if Dangling(F, c) then [c] else []) + FreeKids(AfterTurn(F, n, c), n).lost
    ensures Dangling(F, c) ==> !Free(F, c).ok
    ensures !Free(F, c).ok && Grounded(F.up) ==> (Grounded(AfterTurn(F, n, c).up) <==> !Dangling(F, c))
  {
    hide Settled, Undisputed, Above, Seen, Steal, Grounded, Free, FreeKids;
    var r := Free(F, c);
    TurnUnfolds(F, n, c);
    if !r.ok {
      HeirFits(F, n, r.after);
      HeldIsGrounded(F, c, r.after);
      StolenIff(F, n, r.after, c, Heir(F, n, c));
    }
  }

  /** A first child that is a handle is gone after its turn. */
  lemma HandleUnfolds<N>(F: Forest<N>, n: N, c: N)
    requires CanFreeKids(F, n) && F.kids[n] != [] && c == F.kids[n][0] && c in F.target && F.target[c].Some?
    ensures CanFreeKids(FreeHandle(F, c), n) && FreeKids(F, n) == FreeKids(FreeHandle(F, c), n)
  {
    hide Settled, KidsFreed, FreeHandle;
    var A := FreeHandle(F, c);
    KidSettled(F, n, A, true);
    assert [] + FreeKids(A, n).lost == FreeKids(A, n).lost;
  }

  lemma TurnUnfolds<N>(F: Forest<N>, n: N, c: N)
    requires CanFreeKids(F, n) && F.kids[n] != [] && c == F.kids[n][0] && c in F.target && F.target[c].None?
    requires CanFree(F, c)
    ensures CanFreeKids(AfterTurn(F, n, c), n)
    ensures FreeKids(F, n).after == FreeKids(AfterTurn(F, n, c), n).after
    ensures FreeKids(F, n).lost
         == Free(F, c).lost + (if Dangling(F, c) then [c] else []) + FreeKids(AfterTurn(F, n, c), n).lost
    ensures Dangling(F, c) ==> !Free(F, c).ok
  {
    hide Settled, Undisputed, Above, Seen, Steal, Free;
    var r := Free(F, c);
    KidIsFreeable(F, n);
    KidSettled(F, n, r.after, r.ok);
    if r.ok {
      assert r.lost + [] == r.lost;
    } else {
      HeirFits(F, n, r.after);
      AbandonSettles(F, n, r.after, c, Heir(F, n, c));
    }
  }

  lemma StolenIff<N>(F: Forest<N>, n: N, A: Forest<N>, c: N, p: Option<N>)
    requires KidFreed(F, n, A, false) && c == F.kids[n][0] && c in F.refs && p == Heir(F, n, c)
    requires WellFormed(A) && c in A.up && A.up[c] == Some(n) && (p.Some? ==> ProperChunk(A, p.value))
    ensures Grounded(A.up) ==> (Grounded(Steal(A, c, p).up) <==> !IsBelow(A.up, c, p))
  {
    KidSettled(F, n, A, false);
    KidIsFreeable(F, n);
    assert Fades(F, A, F.loop.Keys, c);
    assert A.loop == F.loop && c !in A.loop;
    FreeableIsClear(A, c);
    if Grounded(A.up) {
      StealKeepsIff(A, c, p);
    }
  }
}
