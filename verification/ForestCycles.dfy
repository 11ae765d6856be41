/**
 When a talloc_free closes a cycle (talloc/talloc.c:1110-1224, 1653-1684): exactly when one of the
 turns of its loops gives a chunk to an owner below that chunk, and such a chunk stays on its cycle.
 */
module ForestCycles {
  import opened Wrappers
  import opened Forests
  import opened ForestSteps
  import opened ForestFree
  import opened ForestSafe

  // ----- No step of a free breaks a cycle -----

  /** Cutting a chunk that is on no cycle breaks none. */
  lemma CutBreaksNothing<N>(up: map<N, Option<N>>, n: N)
    requires n in up && ParentsLive(up) && !Cyclic(up, n)
    ensures Grounded(up[n := None]) <==> Grounded(up)
  {
    var after := up[n := None];
    if Grounded(up) {
      CutKeepsGrounded(up, n);
    }
    if Grounded(after) {
      forall m | m in up
        ensures Ends(up, m)
      {
        UncutEnds(up, n, m);
      }
    }
  }

  lemma UncutEnds<N>(up: map<N, Option<N>>, n: N, m: N)
    requires n in up && m in up && ParentsLive(up) && !Cyclic(up, n) && Grounded(up[n := None])
    ensures Ends(up, m)
  {
    var after := up[n := None];
    assert ParentLives(up, n);
    if !Above(up, n, m) {
      assert Ends(after, m);
      var e: nat :| Up(after, m, e) == None;
      UpElsewhere(up, n, None, m, e);
    } else {
      var j: nat :| Up(up, m, j) == Some(n);
      if up[n].None? {
        assert Up(up, n, 1) == None;
        UpAdd(up, m, j, 1);
      } else {
        var p := up[n].value;
        assert Ends(after, p);
        var e: nat :| Up(after, p, e) == None;
        UpElsewhere(up, n, None, p, e);
        assert Up(up, n, e + 1) == None;
        UpAdd(up, m, j, e + 1);
      }
    }
  }

  /** The child of a root is on no cycle, wherever it goes. */
  lemma MovedFromRoot<N>(up: map<N, Option<N>>, c: N, p: Option<N>, n: N)
    requires ParentsLive(up) && c in up && n in up && c != n && up[c] == Some(n) && up[n].None?
    requires p.Some? ==> p.value in up
    ensures Grounded(up[c := p]) ==> Grounded(up)
    ensures forall x :: x in up && Cyclic(up, x) ==> Cyclic(up[c := p], x)
  {
    var after := up[c := p];
    assert after[c := Some(n)] == up;
    AboveRoot(after, c, n);
    if Grounded(after) {
      forall m | m in after
        ensures ParentLives(after, m)
      {
        assert ParentLives(up, m);
      }
      MoveKeepsGroundedIff(after, c, n);
    }
    forall x | x in up && Cyclic(up, x)
      ensures Cyclic(after, x)
    {
      AboveStep(up, c, c);
      AboveRoot(up, c, n);
      CycleStays(up, c, p, x);
    }
  }

  /** A cycle does not change when a chunk outside of it moves. */
  lemma CycleStays<N>(up: map<N, Option<N>>, c: N, p: Option<N>, x: N)
    requires c in up && !Cyclic(up, c) && Cyclic(up, x)
    ensures Cyclic(up[c := p], x)
  {
    var y := up[x].value;
    var k: nat :| Up(up, y, k) == Some(x);
    assert Up(up, x, k + 1) == Some(x);
    if Above(up, c, x) {
      OnTheCycle(up, x, k + 1, c);
      assert false;
    }
    AboveStep(up, c, x);
    UpElsewhere(up, c, p, y, k);
    AboveItself(up, x);
  }

  /** Whoever is above a chunk on a cycle is on that cycle. */
  lemma OnTheCycle<N>(up: map<N, Option<N>>, x: N, period: nat, a: N)
    requires period > 0 && Up(up, x, period) == Some(x) && Above(up, a, x)
    ensures Cyclic(up, a)
  {
    var j: nat :| Up(up, x, j) == Some(a);
    var r := Rest(up, x, period, j);
    UpAdd(up, x, j, r);
    assert Up(up, a, r) == Some(x);
    UpAdd(up, a, r, j);
    if r + j == 0 {
      assert a == x;
      assert Up(up, a, period) == Some(a);
      assert Up(up, up[a].value, period - 1) == Some(a);
    } else {
      assert Up(up, a, r + j) == Some(a);
      assert Up(up, up[a].value, r + j - 1) == Some(a);
    }
  }

  /** The number of steps that are missing to come back. */
  lemma {:induction false} Rest<N>(up: map<N, Option<N>>, x: N, period: nat, j: nat) returns (r: nat)
    requires period > 0 && Up(up, x, period) == Some(x)
    ensures Up(up, x, j + r) == Some(x)
    decreases j
  {
    if j <= period {
      r := period - j;
    } else {
      r := Rest(up, x, period, j - period);
      UpAdd(up, x, period, j - period + r);
    }
  }

  lemma CycleWithout<N>(up: map<N, Option<N>>, h: N, x: N)
    requires (forall y :: y in up ==> up[y] != Some(h)) && Cyclic(up, x)
    ensures x != h && Cyclic(up - {h}, x)
  {
    if x == h {
      NobodyBelow(up, h, up[x].value);
    }
    AboveWithout(up, h, x, up[x].value);
  }

  // ----- Parents live all along -----

  /** From F to G no cycle is broken. */
  ghost predicate Unbroken<N>(F: Forest<N>, G: Forest<N>) {
    && (Grounded(G.up) ==> Grounded(F.up))
    && (forall x :: x in F.up && Cyclic(F.up, x) ==> Cyclic(G.up, x))
  }

  lemma HandleBreaksNothing<N>(F: Forest<N>, h: N)
    requires WellFormed(F) && h in F.target && F.target[h].Some?
    ensures Unbroken(F, FreeHandle(F, h)) && (Grounded(F.up) ==> Grounded(FreeHandle(F, h).up))
  {
    HandleGone(F, h);
    Childless(F, h);
    ListsAgreeParents(F.up, F.kids);
    assert ParentLives(F.up, h);
    GroundedWithout(F.up, h);
    forall x | x in F.up && Cyclic(F.up, x)
      ensures Cyclic(FreeHandle(F, h).up, x)
    {
      CycleWithout(F.up, h, x);
    }
  }

  /** A chunk that can be freed is on no cycle. */
  lemma FreeableIsNotCyclic<N>(F: Forest<N>, n: N)
    requires CanFree(F, n)
    ensures !Cyclic(F.up, n)
  {
    if F.loop != map[] {
      var r := F.up[n].value;
      assert BeingFreed(F, r);
      AboveRoot(F.up, n, r);
    }
  }

  lemma BeginBreaksNothing<N>(F: Forest<N>, n: N, B: Forest<N>)
    requires CanFree(F, n) && B.up == F.up[n := None]
    ensures Unbroken(F, B) && (Grounded(F.up) ==> Grounded(B.up))
  {
    FreeableIsNotCyclic(F, n);
    ListsAgreeParents(F.up, F.kids);
    CutBreaksNothing(F.up, n);
    forall x | x in F.up && Cyclic(F.up, x)
      ensures Cyclic(B.up, x)
    {
      CycleStays(F.up, n, None, x);
    }
  }

  lemma ReleaseBreaksNothing<N>(K: Forest<N>, n: N)
    requires WellFormed(K) && n in K.loop && n in K.kids && K.kids[n] == []
    ensures Unbroken(K, Release(K, n)) && (Grounded(K.up) ==> Grounded(Release(K, n).up))
  {
    assert BeingFreed(K, n);
    Childless(K, n);
    GroundedWithout(K.up, n);
    forall x | x in K.up && Cyclic(K.up, x)
      ensures Cyclic(Release(K, n).up, x)
    {
      CycleWithout(K.up, n, x);
    }
  }

  lemma GivingBreaksNothing<N>(F: Forest<N>, n: N, A: Forest<N>, c: N, p: Option<N>)
    requires Abandoning(F, n, A, c, p)
    ensures Unbroken(A, Steal(A, c, p))
  {
    KidIsFreeable(F, n);
    KidSettled(F, n, A, false);
    assert Fades(F, A, F.loop.Keys, c);
    assert BeingFreed(A, n);
    if p != Some(c) {
      AbandonKeeps(A, n, c, p);
      ListsAgreeParents(A.up, A.kids);
      MovedFromRoot(A.up, c, p, n);
    }
  }

  lemma UnbrokenTrans<N>(F: Forest<N>, A: Forest<N>, G: Forest<N>)
    requires Unbroken(F, A) && Unbroken(A, G)
    ensures Unbroken(F, G)
  {
  }

  // ----- A whole free -----

  /** Cycles survive, and one comes about exactly when something is lost. */
  ghost predicate Closes<N>(F: Forest<N>, r: Outcome<N>) {
    && Unbroken(F, r.after)
    && (Grounded(F.up) && r.lost == [] ==> Grounded(r.after.up))
    && (forall c :: c in r.lost ==> Cyclic(r.after.up, c))
  }

  lemma ClosesAfter<N>(F: Forest<N>, A: Forest<N>, r: Outcome<N>)
    requires Unbroken(F, A) && (Grounded(F.up) ==> Grounded(A.up)) && Closes(A, r)
    ensures Closes(F, r)
  {
  }

  lemma ClosesBefore<N>(F: Forest<N>, r: Outcome<N>, G: Forest<N>)
    requires Closes(F, r) && Unbroken(r.after, G) && (Grounded(r.after.up) ==> Grounded(G.up))
    ensures Closes(F, Done(G, r.ok, r.lost))
  {
  }

  lemma NothingCloses<N>(F: Forest<N>, G: Forest<N>, ok: bool)
    requires G.up == F.up
    ensures Closes(F, Done(G, ok, []))
  {
  }

  /** Closes, with nothing lost in a failure. */
  ghost predicate FreedCloses<N>(F: Forest<N>, r: Outcome<N>) {
    Closes(F, r) && (!r.ok ==> r.lost == [])
  }

  lemma {:induction false} FreeCloses<N>(F: Forest<N>, n: N)
    requires CanFree(F, n)
    ensures FreedCloses(F, Free(F, n))
    decreases Live(F), 0
  {
    hide FreedCloses, Closes, Seen, Above, Settled, Undisputed, Freed, Free;
    if F.refs[n] != [] {
      FirstGone(F, n);
      if Seen(F.up, n, F.refs[n][0]) {
        FreeCloses(FreeHandle(F, F.refs[n][0]), n);
      }
      ReferencedCloses(F, n, F.refs[n][0]);
    } else if F.destructor[n] == Refuses {
      RefusedCloses(F, n);
    } else {
      BeginSettles(F, n);
      KidsClose(Begin(Ran(F, n), n), n);
      SubtreeCloses(F, n, Begin(Ran(F, n), n));
    }
  }

  lemma FirstGone<N>(F: Forest<N>, n: N)
    requires CanFree(F, n) && F.refs[n] != []
    ensures F.refs[n][0] in F.target && F.target[F.refs[n][0]].Some? && Live(FreeHandle(F, F.refs[n][0])) < Live(F)
    ensures Seen(F.up, n, F.refs[n][0]) ==> CanFree(FreeHandle(F, F.refs[n][0]), n)
  {
    hide Seen, Freed, Settled, Undisputed, Above;
    var h := F.refs[n][0];
    FirstReference(F, n, h);
    if Seen(F.up, n, h) {
      ReferenceFromBelow(F, n, h, FreeHandle(F, h));
    }
  }

  lemma ReferencedCloses<N>(F: Forest<N>, n: N, h: N)
    requires CanFree(F, n) && F.refs[n] != [] && h == F.refs[n][0] && h in F.target && F.target[h].Some?
    requires Seen(F.up, n, h) ==>
      CanFree(FreeHandle(F, h), n) && FreedCloses(FreeHandle(F, h), Free(FreeHandle(F, h), n))
    ensures FreedCloses(F, Free(F, n))
  {
    hide Closes, Unbroken, Seen, Above, Settled, Undisputed, Freed, WellFormed;
    var G := FreeHandle(F, h);
    HandleBreaksNothing(F, h);
    if Seen(F.up, n, h) {
      ClosesAfter(F, G, Free(G, n));
    } else {
      NothingCloses(G, G, false);
      ClosesAfter(F, G, Done(G, false, []));
    }
  }

  lemma RefusedCloses<N>(F: Forest<N>, n: N)
    requires CanFree(F, n) && F.refs[n] == [] && F.destructor[n] == Refuses
    ensures FreedCloses(F, Free(F, n))
  {
    hide Closes, Settled, Undisputed, Freed;
    NothingCloses(F, Ran(F, n), false);
  }

  lemma SubtreeCloses<N>(F: Forest<N>, n: N, B: Forest<N>)
    requires CanFree(F, n) && F.refs[n] == [] && F.destructor[n] != Refuses && WellFormed(Ran(F, n))
    requires B == Begin(Ran(F, n), n) && B.up == F.up[n := None] && CanFreeKids(B, n) && Closes(B, FreeKids(B, n))
    ensures FreedCloses(F, Free(F, n))
  {
    hide Closes, Unbroken, Settled, Undisputed, Freed, Cyclic, Grounded;
    var K := FreeKids(B, n);
    BeginBreaksNothing(F, n, B);
    BegunGoesOn(B, n);
    ClosesAfter(F, B, K);
    ReleaseBreaksNothing(K.after, n);
    ClosesBefore(F, K, Release(K.after, n));
  }

  lemma BegunGoesOn<N>(B: Forest<N>, n: N)
    requires CanFreeKids(B, n)
    ensures var K := FreeKids(B, n).after; WellFormed(K) && n in K.loop && n in K.kids && K.kids[n] == []
  {
    assert KidsFreed(B, n, FreeKids(B, n).after);
  }

  lemma {:induction false} KidsClose<N>(F: Forest<N>, n: N)
    requires CanFreeKids(F, n)
    ensures Closes(F, FreeKids(F, n))
    decreases Live(F), |F.kids[n]| + 1
  {
    hide FreedCloses, Closes, Seen, Above, Settled, Undisputed, Freed;
    if F.kids[n] == [] {
      NothingCloses(F, F, true);
    } else {
      var c := F.kids[n][0];
      KidIsFreeable(F, n);
      if F.target[c].Some? {
        KidSettled(F, n, FreeHandle(F, c), true);
        KidsClose(FreeHandle(F, c), n);
        HandleTurnCloses(F, n, c);
      } else {
        FreeCloses(F, c);
        TurnSettles(F, n, c);
        TurnUnfolds(F, n, c);
        KidsClose(AfterTurn(F, n, c), n);
        TurnCloses(F, n, c);
      }
    }
  }

  lemma HandleTurnCloses<N>(F: Forest<N>, n: N, c: N)
    requires CanFreeKids(F, n) && F.kids[n] != [] && c == F.kids[n][0] && c in F.target && F.target[c].Some?
    requires CanFreeKids(FreeHandle(F, c), n) && Closes(FreeHandle(F, c), FreeKids(FreeHandle(F, c), n))
    ensures Closes(F, FreeKids(F, n))
  {
    hide Closes, Unbroken, Settled, WellFormed, KidsFreed, FreeKids;
    var A := FreeHandle(F, c);
    HandleBreaksNothing(F, c);
    ClosesAfter(F, A, FreeKids(A, n));
    HandleUnfolds(F, n, c);
  }

  lemma TurnCloses<N>(F: Forest<N>, n: N, c: N)
    requires CanFreeKids(F, n) && F.kids[n] != [] && c == F.kids[n][0] && c in F.target && F.target[c].None?
    requires CanFree(F, c) && FreedCloses(F, Free(F, c))
    requires CanFreeKids(AfterTurn(F, n, c), n) && Closes(AfterTurn(F, n, c), FreeKids(AfterTurn(F, n, c), n))
    ensures Closes(F, FreeKids(F, n))
  {
    hide Seen, Above, Settled, Undisputed, Freed, Free, FreeKids, Steal, Cyclic, Grounded, WellFormed;
    var r, A := Free(F, c), AfterTurn(F, n, c);
    TurnUnfolds(F, n, c);
    var here := if Dangling(F, c) then [c] else [];
    if !r.ok {
      FailedTurn(F, n, c);
    }
    LostInTurn(F, A, r.lost + here, FreeKids(A, n), FreeKids(F, n));
  }

  lemma FailedTurn<N>(F: Forest<N>, n: N, c: N)
    requires CanFreeKids(F, n) && F.kids[n] != [] && c == F.kids[n][0] && c in F.target && F.target[c].None?
    requires CanFree(F, c) && Closes(F, Free(F, c)) && !Free(F, c).ok
    ensures Unbroken(F, AfterTurn(F, n, c))
    ensures Grounded(F.up) && !Dangling(F, c) ==> Grounded(AfterTurn(F, n, c).up)
    ensures Dangling(F, c) ==> Cyclic(AfterTurn(F, n, c).up, c)
  {
    hide Unbroken, Seen, Above, Settled, Undisputed, Freed, Free, FreeKids, Steal, Cyclic, Grounded;
    var r := Free(F, c);
    KidIsFreeable(F, n);
    KidSettled(F, n, r.after, false);
    HeirFits(F, n, r.after);
    GivingBreaksNothing(F, n, r.after, c, Heir(F, n, c));
    UnbrokenTrans(F, r.after, AfterTurn(F, n, c));
    TurnKeepsIff(F, n, c);
    if Dangling(F, c) {
      DanglingIsCyclic(F, n, c);
    }
  }

  /** One turn and those that follow. */
  lemma LostInTurn<N>(F: Forest<N>, A: Forest<N>, here: seq<N>, later: Outcome<N>, all: Outcome<N>)
    requires Unbroken(F, A) && (Grounded(F.up) && here == [] ==> Grounded(A.up))
    requires forall c :: c in here ==> Cyclic(A.up, c)
    requires Closes(A, later) && all.after == later.after && all.lost == here + later.lost
    ensures Closes(F, all)
  {
  }

  lemma DanglingIsCyclic<N>(F: Forest<N>, n: N, c: N)
    requires CanFreeKids(F, n) && F.kids[n] != [] && c == F.kids[n][0] && c in F.target && F.target[c].None?
    requires CanFree(F, c) && Dangling(F, c)
    ensures Cyclic(AfterTurn(F, n, c).up, c)
  {
    hide Seen, Settled, Undisputed, Free, FreeKids;
    TurnUnfolds(F, n, c);
    var r := Free(F, c);
    KidSettled(F, n, r.after, false);
    HeirFits(F, n, r.after);
    var p := Heir(F, n, c);
    assert Fades(F, r.after, F.loop.Keys, c) by { SameFade(F, r.after, F.loop.Keys, c); }
    KidIsFreeable(F, n);
    AbandonKeeps(r.after, n, c, p);
    SameBelow(r.after.up, c, p, p.value);
  }

  lemma SameFade<N>(F: Forest<N>, A: Forest<N>, tops: set<N>, x: N)
    requires Settled(F, A, tops) && x in A.up
    ensures Fades(F, A, tops, x)
  {
  }

  /**
   A talloc_free leaves a hierarchy without cycles exactly when there was none before and no chunk was
   given to an owner below itself; each such chunk is on a cycle afterwards.
   */
  lemma FreeKeepsIff<N>(F: Forest<N>, n: N)
    requires CanFree(F, n)
    ensures Grounded(Free(F, n).after.up) <==> Grounded(F.up) && Free(F, n).lost == []
    ensures forall c :: c in Free(F, n).lost ==> Cyclic(Free(F, n).after.up, c)
  {
    hide Free, Cyclic;
    FreeCloses(F, n);
    assert Closes(F, Free(F, n)) && Unbroken(F, Free(F, n).after);
    var r := Free(F, n);
    if Grounded(r.after.up) && r.lost != [] {
      var c := r.lost[0];
      assert c in r.lost;
      CyclicLives(r.after.up, c);
      NoCycle(r.after.up, c);
    }
  }

  lemma CyclicLives<N>(up: map<N, Option<N>>, c: N)
    requires Cyclic(up, c)
    ensures c in up
  {
  }

  // ----- Whom a child goes to, and when destructors are called -----

  /**
   A child that could not be freed goes to the holder of its most recent reference; when that is the null
   context, or there is none, to the parent that the freed chunk keeps.  One that holds its own reference
   stays for another turn.
   */
  lemma AbandonedGoesTo<N>(F: Forest<N>, n: N, c: N)
    requires CanFreeKids(F, n) && F.kids[n] != [] && c == F.kids[n][0] && c in F.target && F.target[c].None?
    requires CanFree(F, c) && !Free(F, c).ok
    ensures c in AfterTurn(F, n, c).up && c in F.refs && forall h :: h in F.refs[c] ==> h in F.up
    ensures AfterTurn(F, n, c).up[c] ==
      if F.refs[c] == [] || F.up[F.refs[c][0]].None? then F.loop[n]
      else if F.up[F.refs[c][0]] == Some(c) then Some(n)
      else F.up[F.refs[c][0]]
  {
    hide Seen, Settled, Undisputed, Free, FreeKids, Steal, Above;
    var r := Free(F, c);
    KidIsFreeable(F, n);
    KidSettled(F, n, r.after, false);
    HeirFits(F, n, r.after);
    forall h | h in F.refs[c]
      ensures h in F.up
    {
      HandleAlive(F, c, h);
    }
    var p := Heir(F, n, c);
    SameFade(F, r.after, F.loop.Keys, c);
    if p.Some? {
      NotItself(F, n, r.after, c);
    }
    if p == Some(c) {
      StealsItself(r.after, c);
    } else {
      AbandonKeeps(r.after, n, c, p);
    }
  }

  /** A child is not the kept parent of the chunk that is being freed. */
  lemma NotItself<N>(F: Forest<N>, n: N, A: Forest<N>, c: N)
    requires LoopAgrees(F) && n in F.loop && c in F.up && F.up[c] == Some(n)
    ensures F.loop[n] != Some(c)
  {
    AboveItself(F.up, c);
    if F.loop[n].Some? {
      KeptParentFits(F, n, c);
    }
  }

  lemma StealsItself<N>(A: Forest<N>, c: N)
    requires c in A.up && ListsAgree(A.up, A.kids)
    ensures Steal(A, c, Some(c)) == A
  {
  }

  lemma RanExtends<N>(F: Forest<N>, n: N)
    requires n in F.destructor
    ensures F.ran <= Ran(F, n).ran
  {
  }

  lemma DestructorIsThere<N>(F: Forest<N>, n: N)
    requires CanFree(F, n)
    ensures n in F.destructor && n in F.refs
  {
  }

  lemma RefusedRan<N>(F: Forest<N>, n: N)
    requires CanFree(F, n) && F.refs[n] == [] && n in F.destructor && F.destructor[n] == Refuses
    ensures Free(F, n) == Done(F.(ran := F.ran + [n]), false, [])
  {
    hide Settled, Undisputed, Freed;
  }

  lemma ReferencedRan<N>(F: Forest<N>, n: N, G: Forest<N>)
    requires CanFree(F, n) && F.refs[n] != [] && F.refs[n][0] in F.target && F.target[F.refs[n][0]].Some?
    requires G == FreeHandle(F, F.refs[n][0]) && (Seen(F.up, n, F.refs[n][0]) ==> CanFree(G, n))
    ensures Free(F, n).after.ran == if Seen(F.up, n, F.refs[n][0]) then Free(G, n).after.ran else G.ran
  {
    hide Seen, Above, Settled, Undisputed, Freed, FreeHandle;
  }

  lemma SubtreeRan<N>(F: Forest<N>, n: N, B: Forest<N>)
    requires CanFree(F, n) && F.refs[n] == [] && n in F.destructor && F.destructor[n] != Refuses && WellFormed(Ran(F, n))
    requires B == Begin(Ran(F, n), n) && CanFreeKids(B, n)
    ensures B.ran == Ran(F, n).ran && Free(F, n).after.ran == FreeKids(B, n).after.ran
  {
    hide Settled, Undisputed, Freed, KidsFreed;
  }

  lemma {:induction false} FreeExtendsRan<N>(F: Forest<N>, n: N)
    requires CanFree(F, n)
    ensures F.ran <= Free(F, n).after.ran
    decreases Live(F), 0
  {
    hide Seen, Above, Settled, Undisputed, Freed, Cyclic, Free, Ran;
    if F.refs[n] != [] {
      var h := F.refs[n][0];
      FirstGone(F, n);
      HandleGone(F, h);
      ReferencedRan(F, n, FreeHandle(F, h));
      if Seen(F.up, n, h) {
        FreeExtendsRan(FreeHandle(F, h), n);
      }
    } else {
      DestructorIsThere(F, n);
      if F.destructor[n] == Refuses {
        RefusedRan(F, n);
      } else {
        BeginSettles(F, n);
        FreeKidsExtendRan(Begin(Ran(F, n), n), n);
        SubtreeRan(F, n, Begin(Ran(F, n), n));
        RanExtends(F, n);
      }
    }
  }

  lemma {:induction false} FreeKidsExtendRan<N>(F: Forest<N>, n: N)
    requires CanFreeKids(F, n)
    ensures F.ran <= FreeKids(F, n).after.ran
    decreases Live(F), |F.kids[n]| + 1
  {
    hide Seen, Above, Settled, Undisputed, Freed, Cyclic;
    if F.kids[n] != [] {
      var c := F.kids[n][0];
      KidIsFreeable(F, n);
      if F.target[c].Some? {
        KidSettled(F, n, FreeHandle(F, c), true);
        HandleUnfolds(F, n, c);
        HandleGone(F, c);
        FreeKidsExtendRan(FreeHandle(F, c), n);
      } else {
        FreeExtendsRan(F, c);
        TurnSettles(F, n, c);
        TurnUnfolds(F, n, c);
        TurnRan(F, n, c);
        FreeKidsExtendRan(AfterTurn(F, n, c), n);
      }
    }
  }

  lemma TurnRan<N>(F: Forest<N>, n: N, c: N)
    requires CanFreeKids(F, n) && F.kids[n] != [] && c == F.kids[n][0] && c in F.target && F.target[c].None?
    requires CanFree(F, c)
    ensures AfterTurn(F, n, c).ran == Free(F, c).after.ran
  {
    hide Free, Settled, Undisputed, Seen, Above;
    if !Free(F, c).ok {
      KidIsFreeable(F, n);
      HeirFits(F, n, Free(F, c).after);
    }
  }

  /**
   The destructor of a chunk without references is called first, before anything below the chunk is
   touched; when it refuses, that call is all that happens.
   */
  lemma DestructorFirst<N>(F: Forest<N>, n: N)
    requires CanFree(F, n) && F.refs[n] == []
    ensures n in F.destructor
    ensures F.destructor[n] == Refuses ==> Free(F, n) == Done(F.(ran := F.ran + [n]), false, [])
    ensures F.destructor[n] == Succeeds ==> F.ran + [n] <= Free(F, n).after.ran
  {
    hide Settled, Undisputed, Freed, Seen, Above, Free, FreeKids;
    DestructorIsThere(F, n);
    if F.destructor[n] == Refuses {
      RefusedRan(F, n);
    } else {
      BeginSettles(F, n);
      FreeKidsExtendRan(Begin(Ran(F, n), n), n);
      SubtreeRan(F, n, Begin(Ran(F, n), n));
    }
  }
}
