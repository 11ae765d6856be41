/**
 Freeing a subtree that nobody references from outside and whose destructors all succeed
 (talloc/talloc.c:1110-1224, 1653-1684): exactly that subtree goes, although parts of it can be given to
 each other on the way, and each of its destructors is called once.
 */
module ForestExact {
  import opened Wrappers
  import opened Forests
  import opened ForestSteps
  import opened ForestFree
  import opened ForestSafe

  ghost function Subtree<N>(up: map<N, Option<N>>, n: N): set<N> {
    set x | x in up && Above(up, n, x)
  }

  /** The chunks among `s` that have a destructor of their own. */
  ghost function Running<N>(F: Forest<N>, s: set<N>): set<N> {
    set x | x in s && x in F.destructor && F.destructor[x] != NoDestructor
  }

  /** Exactly `s` is gone, all others keep their parents, and exactly the destructors of `s` were called, once each. */
  ghost predicate Exactly<N>(F: Forest<N>, G: Forest<N>, s: set<N>) {
    && G.up.Keys == F.up.Keys - s
    && (forall x :: x in G.up ==> G.up[x] == F.up[x])
    && multiset(G.ran) == multiset(F.ran) + multiset(Running(F, s))
  }

  ghost predicate ContainedAt<N>(F: Forest<N>, tops: set<N>, x: N) {
    Doomed(F.up, tops, x) ==>
      && x in F.refs && x in F.destructor && F.destructor[x] != Refuses
      && forall h :: h in F.refs[x] ==> Doomed(F.up, tops, h)
  }

  /** References to what goes are held by what goes, and no destructor refuses. */
  ghost predicate Contained<N>(F: Forest<N>, tops: set<N>) {
    forall x {:trigger ContainedAt(F, tops, x)} :: x in F.up ==> ContainedAt(F, tops, x)
  }

  ghost predicate EmptiedAt<N>(F: Forest<N>, G: Forest<N>, tops: set<N>, x: N)
    requires x in F.up
  {
    if Doomed(F.up, tops, x) then x in G.up ==> Doomed(G.up, tops, x)
    else x in G.up && G.up[x] == F.up[x]
  }

  /**
   From F to G some of what goes is gone and the rest still goes; all others are where they were, and
   exactly the destructors of what is gone were called, once each.
   */
  ghost predicate Emptied<N>(F: Forest<N>, G: Forest<N>, tops: set<N>) {
    && G.up.Keys <= F.up.Keys
    && (forall x {:trigger EmptiedAt(F, G, tops, x)} :: x in F.up ==> EmptiedAt(F, G, tops, x))
    && multiset(G.ran) == multiset(F.ran) + multiset(Running(F, F.up.Keys - G.up.Keys))
  }

  lemma EmptiedIsContained<N>(F: Forest<N>, G: Forest<N>, tops: set<N>)
    requires Contained(F, tops) && Settled(F, G, tops) && Emptied(F, G, tops) && WellFormed(G)
    ensures Contained(G, tops)
  {
    forall x | x in G.up
      ensures ContainedAt(G, tops, x)
    {
      assert Fades(F, G, tops, x) && ContainedAt(F, tops, x);
      if Doomed(G.up, tops, x) {
        forall h | h in G.refs[x]
          ensures Doomed(G.up, tops, h)
        {
          HandleAlive(G, x, h);
          assert EmptiedAt(F, G, tops, h);
        }
      }
    }
  }

  lemma EmptiedItself<N>(F: Forest<N>, tops: set<N>)
    ensures Emptied(F, F, tops)
  {
    assert F.up.Keys - F.up.Keys == {};
    assert Running(F, {}) == {};
    assert multiset(Running(F, {})) == multiset{};
  }

  lemma EmptiedTrans<N>(F: Forest<N>, A: Forest<N>, G: Forest<N>, tops: set<N>)
    requires Emptied(F, A, tops) && Emptied(A, G, tops) && Settled(F, A, tops) && WellFormed(F) && WellFormed(A)
    ensures Emptied(F, G, tops)
  {
    hide Running, Doomed, WellFormed;
    forall x | x in F.up
      ensures EmptiedAt(F, G, tops, x)
    {
      assert EmptiedAt(F, A, tops, x);
      if x in A.up {
        assert EmptiedAt(A, G, tops, x) && Fades(F, A, tops, x);
      }
    }
    var s, t := F.up.Keys - A.up.Keys, A.up.Keys - G.up.Keys;
    forall x | x in t
      ensures x in A.destructor && x in F.destructor && A.destructor[x] == F.destructor[x]
    {
      assert Fades(F, A, tops, x);
    }
    RunningSplits(F, A, s, t);
    assert F.up.Keys - G.up.Keys == s + t;
  }

  lemma RunningSplits<N>(F: Forest<N>, A: Forest<N>, s: set<N>, t: set<N>)
    requires s !! t && forall x :: x in t ==> x in A.destructor && x in F.destructor && A.destructor[x] == F.destructor[x]
    ensures multiset(Running(F, s + t)) == multiset(Running(F, s)) + multiset(Running(A, t))
  {
    assert Running(A, t) == Running(F, t);
    assert Running(F, s + t) == Running(F, s) + Running(F, t);
    MultisetOfUnion(Running(F, s), Running(F, t));
  }

  lemma MultisetOfUnion<N>(a: set<N>, b: set<N>)
    requires a !! b
    ensures multiset(a + b) == multiset(a) + multiset(b)
  {
    assert forall x :: multiset(a + b)[x] == (multiset(a) + multiset(b))[x];
  }

  lemma HandleEmpties<N>(F: Forest<N>, h: N, tops: set<N>)
    requires WellFormed(F) && h in F.target && F.target[h].Some? && Doomed(F.up, tops, h)
    ensures Emptied(F, FreeHandle(F, h), tops)
  {
    HandleGone(F, h);
    assert HandleIsLeaf(F, h);
    var G := FreeHandle(F, h);
    ListsAgreeParents(G.up, G.kids);
    forall x | x in F.up
      ensures EmptiedAt(F, G, tops, x)
    {
      if x != h {
        forall r | r in tops && Above(F.up, r, x)
          ensures Above(G.up, r, x)
        {
          SameAncestors(F.up, G.up, r, x);
        }
      }
    }
    assert F.up.Keys - G.up.Keys == {h} && Running(F, {h}) == {};
    assert multiset(Running(F, {h})) == multiset{};
  }

  /** Freeing a chunk in the middle of others that go. */
  lemma {:induction false} FreeEmpties<N>(F: Forest<N>, n: N)
    requires CanFree(F, n) && Contained(F, F.loop.Keys + {n}) && Free(F, n).lost == []
    ensures Emptied(F, Free(F, n).after, F.loop.Keys + {n})
    decreases Live(F), 0
  {
    var tops := F.loop.Keys + {n};
    AboveItself(F.up, n);
    assert ContainedAt(F, tops, n);
    if F.refs[n] != [] {
      var h := F.refs[n][0];
      FirstReference(F, n, h);
      assert h in F.refs[n];
      HandleEmpties(F, h, tops);
      if Seen(F.up, n, h) {
        var G := FreeHandle(F, h);
        ReferenceFromBelow(F, n, h, G);
        EmptiedIsContained(F, G, tops);
        FreeEmpties(G, n);
        EmptiedTrans(F, G, Free(G, n).after, tops);
      }
    } else {
      var B := Begin(Ran(F, n), n);
      BeginSettles(F, n);
      BegunFields(F, n);
      BeginIsContained(F, B, n);
      FreeKidsEmpties(B, n);
      ReleaseEmpties(F, B, FreeKids(B, n).after, n);
    }
  }

  lemma BeginIsContained<N>(F: Forest<N>, B: Forest<N>, n: N)
    requires n in F.up && Contained(F, F.loop.Keys + {n}) && B.loop.Keys == F.loop.Keys + {n}
    requires B.up == F.up[n := None] && B.refs == F.refs && B.destructor == F.destructor
    ensures Contained(B, B.loop.Keys)
    ensures forall x :: Doomed(B.up, B.loop.Keys, x) <==> Doomed(F.up, B.loop.Keys, x)
  {
    AboveItself(F.up, n);
    var tops := F.loop.Keys + {n};
    forall x
      ensures Doomed(B.up, tops, x) <==> Doomed(F.up, tops, x)
    {
      CutKeepsDoom(F.up, n, tops, x);
    }
    forall x | x in B.up
      ensures ContainedAt(B, tops, x)
    {
      assert ContainedAt(F, tops, x);
    }
  }

  lemma CutKeepsDoom<N>(up: map<N, Option<N>>, n: N, tops: set<N>, x: N)
    requires n in up && n in tops
    ensures Doomed(up[n := None], tops, x) <==> Doomed(up, tops, x)
  {
    var after := up[n := None];
    AboveItself(up, n);
    SameBelow(up, n, None, x);
    if Doomed(after, tops, x) {
      DoomedElsewhere(up, tops, n, None, x);
    }
    if Doomed(up, tops, x) && !Above(up, n, x) {
      assert after[n := up[n]] == up;
      var r :| r in tops && Above(up, r, x);
      AboveElsewhere(after, n, up[n], r, x);
    }
  }

  lemma ReleaseEmpties<N>(F: Forest<N>, B: Forest<N>, K: Forest<N>, n: N)
    requires n in F.up && n in F.destructor && B.up == F.up[n := None] && B.destructor == F.destructor
    requires B.ran == Ran(F, n).ran && B.loop.Keys == F.loop.Keys + {n} && Emptied(B, K, B.loop.Keys)
    requires KidsFreed(B, n, K) && n in K.up
    requires forall x :: Doomed(B.up, B.loop.Keys, x) <==> Doomed(F.up, B.loop.Keys, x)
    ensures Emptied(F, Release(K, n), F.loop.Keys + {n})
  {
    hide Running, Settled, Above, Doomed, WellFormed, Release, KidsFreed;
    KidsGone(B, n, K);
    ReleasedFields(K, n);
    AboveItself(F.up, n);
    DoomedTop(F.up, F.loop.Keys + {n}, n);
    forall x | x in F.up
      ensures EmptiedAt(F, Release(K, n), F.loop.Keys + {n}, x)
    {
      assert EmptiedAt(B, K, F.loop.Keys + {n}, x);
      LeafReleased(K, n, F.loop.Keys + {n}, x);
    }
    ReleaseRan(F, B, K, n);
  }

  lemma KidsGone<N>(B: Forest<N>, n: N, K: Forest<N>)
    requires KidsFreed(B, n, K)
    ensures WellFormed(K) && n in K.kids && K.kids[n] == []
  {
  }

  lemma DoomedTop<N>(up: map<N, Option<N>>, tops: set<N>, n: N)
    requires n in tops
    ensures Doomed(up, tops, n)
  {
    AboveItself(up, n);
  }

  /** A chunk without children is released: what went before still goes. */
  lemma LeafReleased<N>(K: Forest<N>, n: N, tops: set<N>, x: N)
    requires WellFormed(K) && n in K.kids && K.kids[n] == []
    ensures x != n && Doomed(K.up, tops, x) ==> Doomed(Release(K, n).up, tops, x)
  {
    Childless(K, n);
    if x != n && Doomed(K.up, tops, x) {
      var r :| r in tops && Above(K.up, r, x);
      AboveWithout(K.up, n, r, x);
    }
  }

  lemma ReleaseRan<N>(F: Forest<N>, B: Forest<N>, K: Forest<N>, n: N)
    requires n in F.up && n in F.destructor && B.up == F.up[n := None] && B.destructor == F.destructor
    requires B.ran == Ran(F, n).ran && n in K.up && K.up.Keys <= B.up.Keys
    requires multiset(K.ran) == multiset(B.ran) + multiset(Running(B, B.up.Keys - K.up.Keys))
    ensures multiset(Release(K, n).ran) == multiset(F.ran) + multiset(Running(F, F.up.Keys - Release(K, n).up.Keys))
  {
    hide Running;
    var one := if F.destructor[n] == NoDestructor then {} else {n};
    var s := F.up.Keys - Release(K, n).up.Keys;
    RunningWith(F, B, s, n, one);
    RanOnce(F, n, one);
    assert s - {n} == B.up.Keys - K.up.Keys;
    UnionsInTurn(multiset(F.ran), multiset(one), multiset(Running(B, s - {n})));
  }

  lemma RanOnce<N>(F: Forest<N>, n: N, one: set<N>)
    requires n in F.destructor && one == if F.destructor[n] == NoDestructor then {} else {n}
    ensures multiset(Ran(F, n).ran) == multiset(F.ran) + multiset(one)
  {
  }

  lemma ReleasedFields<N>(K: Forest<N>, n: N)
    ensures Release(K, n).up == K.up - {n} && Release(K, n).ran == K.ran
  {
  }

  lemma UnionsInTurn<T>(a: multiset<T>, b: multiset<T>, c: multiset<T>)
    ensures (a + b) + c == a + (c + b)
  {
  }

  lemma RunningWith<N>(F: Forest<N>, B: Forest<N>, s: set<N>, n: N, one: set<N>)
    requires n in F.destructor && n in s && B.destructor == F.destructor
    requires one == if F.destructor[n] == NoDestructor then {} else {n}
    ensures multiset(Running(F, s)) == multiset(Running(B, s - {n})) + multiset(one)
  {
    assert Running(F, s) == Running(B, s - {n}) + one;
    MultisetOfUnion(Running(B, s - {n}), one);
  }

  lemma {:induction false} FreeKidsEmpties<N>(F: Forest<N>, n: N)
    requires CanFreeKids(F, n) && Contained(F, F.loop.Keys) && FreeKids(F, n).lost == []
    ensures Emptied(F, FreeKids(F, n).after, F.loop.Keys) && n in FreeKids(F, n).after.up
    decreases Live(F), |F.kids[n]| + 1
  {
    assert BeingFreed(F, n);
    if F.kids[n] == [] {
      EmptiedItself(F, F.loop.Keys);
    } else {
      var c := F.kids[n][0];
      KidIsFreeable(F, n);
      var A := TurnEmpties(F, n, c);
      EmptiedIsContained(F, A, F.loop.Keys);
      FreeKidsEmpties(A, n);
      EmptiedTrans(F, A, FreeKids(A, n).after, F.loop.Keys);
    }
  }

  lemma TurnEmpties<N>(F: Forest<N>, n: N, c: N) returns (A: Forest<N>)
    requires CanFreeKids(F, n) && Contained(F, F.loop.Keys) && FreeKids(F, n).lost == [] && F.kids[n] != [] && c == F.kids[n][0]
    requires c in F.up && c in F.target && F.up[c] == Some(n) && c !in F.loop && (F.target[c].None? ==> CanFree(F, c))
    ensures CanFreeKids(A, n) && A.loop == F.loop
    ensures FreeKids(F, n).after == FreeKids(A, n).after && FreeKids(A, n).lost == []
    ensures Settled(F, A, F.loop.Keys) && Emptied(F, A, F.loop.Keys)
    ensures Live(A) < Live(F) || (Live(A) == Live(F) && |A.kids[n]| < |F.kids[n]|)
    decreases Live(F), |F.kids[n]|, 1
  {
    hide Emptied, Contained, Settled, FreeKids, Above, FreeHandle, Doomed;
    var tops := F.loop.Keys;
    DoomedKid(F.up, tops, c, c);
    if F.target[c].Some? {
      A := FreeHandle(F, c);
      HandleUnfolds(F, n, c);
      KidSettled(F, n, A, true);
      HandleEmpties(F, c, tops);
    } else {
      A := ChunkTurnEmpties(F, n, c);
    }
  }

  lemma ChunkTurnEmpties<N>(F: Forest<N>, n: N, c: N) returns (A: Forest<N>)
    requires CanFreeKids(F, n) && Contained(F, F.loop.Keys) && FreeKids(F, n).lost == [] && F.kids[n] != [] && c == F.kids[n][0]
    requires c in F.up && c in F.target && F.up[c] == Some(n) && c !in F.loop && F.target[c].None? && CanFree(F, c)
    ensures CanFreeKids(A, n) && A.loop == F.loop
    ensures FreeKids(F, n).after == FreeKids(A, n).after && FreeKids(A, n).lost == []
    ensures Settled(F, A, F.loop.Keys) && Emptied(F, A, F.loop.Keys)
    ensures Live(A) < Live(F) || (Live(A) == Live(F) && |A.kids[n]| < |F.kids[n]|)
    decreases Live(F), |F.kids[n]|, 0
  {
    hide Emptied, Contained, Settled, Dangling, Doomed, Above, Free, FreeKids, WellFormed, Steal, StillHeld, Undisputed;
    TurnUnfolds(F, n, c);
    var r := Free(F, c);
    KidIsContained(F, c);
    FreeEmpties(F, c);
    KidSettled(F, n, r.after, r.ok);
    EmptiedForParent(F, n, r.after, c, r.ok);
    TurnSettles(F, n, c);
    A := AfterTurn(F, n, c);
    if !r.ok {
      HeirFits(F, n, r.after);
      FailedTurnEmpties(F, n, r.after, c, Heir(F, n, c));
    }
  }

  lemma FailedTurnEmpties<N>(F: Forest<N>, n: N, A: Forest<N>, c: N, p: Option<N>)
    requires Abandoning(F, n, A, c, p) && c !in F.loop && c in F.up && F.up[c] == Some(n) && !IsBelow(A.up, c, p)
    requires Contained(F, F.loop.Keys) && Emptied(F, A, F.loop.Keys)
    ensures Emptied(F, Steal(A, c, p), F.loop.Keys)
  {
    hide Emptied, Contained, Settled, Dangling, Doomed, Above, Steal;
    KidSettled(F, n, A, false);
    HeirGoes(F, n, A, c);
    GivenUp(F, n, A, c, p);
    GivenInside(A, n, c, p.value, F.loop.Keys);
    EmptiedTrans(F, A, Steal(A, c, p), F.loop.Keys);
  }

  lemma GivenUp<N>(F: Forest<N>, n: N, A: Forest<N>, c: N, p: Option<N>)
    requires Abandoning(F, n, A, c, p) && p.Some? && c !in F.loop
    ensures p.value in A.up && (p.value != c ==> Steal(A, c, p).up == A.up[c := p])
  {
    hide Settled, Doomed, Above;
    KidSettled(F, n, A, false);
    assert Fades(F, A, F.loop.Keys, c) by { SameFade(F, A, F.loop.Keys, c); }
    if p.value != c {
      AbandonKeeps(A, n, c, p);
    }
  }

  lemma SameFade<N>(F: Forest<N>, A: Forest<N>, tops: set<N>, x: N)
    requires Settled(F, A, tops) && x in A.up
    ensures Fades(F, A, tops, x)
  {
  }

  lemma KidIsContained<N>(F: Forest<N>, c: N)
    requires c in F.up && F.up[c].Some? && F.up[c].value in F.loop && Contained(F, F.loop.Keys)
    ensures Contained(F, F.loop.Keys + {c})
  {
    var tops := F.loop.Keys + {c};
    forall x | x in F.up
      ensures ContainedAt(F, tops, x)
    {
      assert ContainedAt(F, F.loop.Keys, x);
      DoomedKid(F.up, F.loop.Keys, c, x);
      if Doomed(F.up, tops, x) {
        forall h | h in F.refs[x]
          ensures Doomed(F.up, tops, h)
        {
          DoomedKid(F.up, F.loop.Keys, c, h);
        }
      }
    }
  }

  lemma EmptiedForParent<N>(F: Forest<N>, n: N, A: Forest<N>, c: N, ok: bool)
    requires CanFreeKids(F, n) && c in F.up && F.up[c] == Some(n) && Emptied(F, A, F.loop.Keys + {c})
    requires WellFormed(A) && Freed(F, c, A, ok)
    ensures Emptied(F, A, F.loop.Keys)
  {
    var tops := F.loop.Keys;
    ListsAgreeParents(A.up, A.kids);
    forall x | x in F.up
      ensures EmptiedAt(F, A, tops, x)
    {
      assert EmptiedAt(F, A, tops + {c}, x);
      DoomedKid(F.up, tops, c, x);
      if x in A.up && Doomed(A.up, tops + {c}, x) {
        if ok {
          var r :| r in tops + {c} && Above(A.up, r, x);
          if k: nat :| Up(A.up, x, k) == Some(r) {
            AboveLive(A.up, r, x, k);
          }
        } else {
          DoomedKid(A.up, tops, c, x);
        }
      }
    }
  }

  /** The owner of a child that could not be freed goes, too. */
  lemma HeirGoes<N>(F: Forest<N>, n: N, A: Forest<N>, c: N)
    requires KidFreed(F, n, A, false) && c == F.kids[n][0] && c in F.up && F.up[c] == Some(n)
    requires Contained(F, F.loop.Keys) && Emptied(F, A, F.loop.Keys)
    requires Heir(F, n, c).Some? ==> Heir(F, n, c).value in A.up
    ensures Heir(F, n, c).Some? && Doomed(A.up, F.loop.Keys, Heir(F, n, c).value)
  {
    hide ListsAgree;
    var tops := F.loop.Keys;
    DoomedKid(F.up, tops, c, c);
    assert ContainedAt(F, tops, c);
    var h := F.refs[c][0];
    assert h in F.refs[c];
    HandleAlive(F, c, h);
    assert HandleIsLeaf(F, h);
    var r :| r in tops && Above(F.up, r, h);
    AboveStep(F.up, r, h);
    var o := F.up[h].value;
    assert Doomed(F.up, tops, o);
    assert EmptiedAt(F, A, tops, o);
  }

  /** A chunk that goes is given to another one that goes. */
  lemma GivenInside<N>(A: Forest<N>, n: N, c: N, o: N, tops: set<N>)
    requires WellFormed(A) && c in A.up && A.up[c] == Some(n) && n in tops && o in A.up && Doomed(A.up, tops, o)
    requires c !in tops && !IsBelow(A.up, c, Some(o))
    requires o != c ==> Steal(A, c, Some(o)).up == A.up[c := Some(o)]
    ensures Emptied(A, Steal(A, c, Some(o)), tops)
  {
    var B := Steal(A, c, Some(o));
    assert B.ran == A.ran && B.up.Keys == A.up.Keys;
    EmptiedItself(A, tops);
    if o != c {
      DoomedKid(A.up, tops, c, c);
      AboveItself(A.up, c);
      StaysDoomed(A.up, c, o, tops, o);
      forall x | x in A.up
        ensures EmptiedAt(A, B, tops, x)
      {
        if Doomed(A.up, tops, x) {
          StaysDoomed(A.up, c, o, tops, x);
        }
      }
    }
  }

  lemma StaysDoomed<N>(up: map<N, Option<N>>, c: N, o: N, tops: set<N>, x: N)
    requires c in up && o in up && !Above(up, c, o) && Doomed(up, tops, o) && Doomed(up, tops, x) && c !in tops
    ensures Doomed(up[c := Some(o)], tops, x)
  {
    var after := up[c := Some(o)];
    assert after[c := up[c]] == up;
    SameBelow(up, c, Some(o), x);
    SameBelow(up, c, Some(o), o);
    var r :| r in tops && Above(up, r, o);
    AboveElsewhere(after, c, up[c], r, o);
    if Above(up, c, x) {
      AboveStep(after, r, c);
      AboveTrans(after, r, c, x);
    } else {
      var q :| q in tops && Above(up, q, x);
      AboveElsewhere(after, c, up[c], q, x);
    }
  }

  /**
   Freeing a subtree to which no reference is held from outside, whose destructors agree, and in which
   nothing is lost on the way: when the references to its root are no more than MAX_DEPTH levels deep
   it reports success, and exactly that subtree goes.
   */
  lemma FreesExactly<N>(F: Forest<N>, n: N)
    requires CanFree(F, n) && F.loop == map[] && Contained(F, {n}) && Undisputed(F, n) && Free(F, n).lost == []
    ensures Free(F, n).ok && Exactly(F, Free(F, n).after, Subtree(F.up, n))
  {
    hide Free, Running, Settled, Exactly, Emptied;
    assert F.loop.Keys + {n} == {n};
    AboveItself(F.up, n);
    assert ContainedAt(F, {n}, n);
    FreeEmpties(F, n);
    NothingIsLeft(F, Free(F, n).after, n);
  }

  lemma NothingIsLeft<N>(F: Forest<N>, G: Forest<N>, n: N)
    requires n in F.up && Emptied(F, G, {n}) && WellFormed(G) && n !in G.up
    ensures Exactly(F, G, Subtree(F.up, n))
  {
    hide Running;
    ListsAgreeParents(G.up, G.kids);
    forall x | x in F.up
      ensures x in G.up <==> !Above(F.up, n, x)
      ensures x in G.up ==> G.up[x] == F.up[x]
    {
      assert EmptiedAt(F, G, {n}, x);
      if x in G.up && Doomed(G.up, {n}, x) {
        if k: nat :| Up(G.up, x, k) == Some(n) {
          AboveLive(G.up, n, x, k);
        }
      }
    }
    assert F.up.Keys - G.up.Keys == Subtree(F.up, n);
  }

  ghost predicate PlainAt<N>(F: Forest<N>, n: N, x: N) {
    Above(F.up, n, x) ==> && x in F.refs && F.refs[x] == []
                          && x in F.destructor && F.destructor[x] != Refuses
  }

  /** Without any reference nothing can be lost. */
  lemma UnreferencedFreesExactly<N>(F: Forest<N>, n: N)
    requires CanFree(F, n) && F.loop == map[] && forall x :: x in F.up ==> PlainAt(F, n, x)
    ensures Free(F, n).lost == [] && Free(F, n).ok && Exactly(F, Free(F, n).after, Subtree(F.up, n))
  {
    forall x | x in F.up
      ensures OrderlyAt(F, {n}, x) && ContainedAt(F, {n}, x)
    {
      assert PlainAt(F, n, x);
    }
    assert F.loop.Keys + {n} == {n};
    AboveItself(F.up, n);
    assert PlainAt(F, n, n);
    OrderlyIsSafe(F, n);
    FreesExactly(F, n);
  }
}
