/**
 A condition on the hierarchy before a talloc_free under which no chunk is lost below itself
 (talloc/talloc.c:1110-1224, 1653-1684).
 */
module ForestSafe {
  import opened Collections
  import opened Wrappers
  import opened Forests
  import opened ForestSteps
  import opened ForestFree

  /**
   A chunk that goes with `tops` is given away safely if it has at most one reference, its destructor
   does not refuse, and the hierarchy is no larger than the depth of talloc_is_parent, or if all its
   references are held from elsewhere.
   */
  ghost predicate Manageable<N>(F: Forest<N>, tops: set<N>, x: N)
    requires x in F.refs && x in F.destructor
  {
    || (|F.refs[x]| <= 1 && F.destructor[x] != Refuses && |F.up| <= MAX_DEPTH)
    || (forall h :: h in F.refs[x] ==> !Doomed(F.up, tops, h))
  }

  ghost predicate OrderlyAt<N>(F: Forest<N>, tops: set<N>, x: N) {
    Doomed(F.up, tops, x) && x !in tops ==> x in F.refs && x in F.destructor && Manageable(F, tops, x)
  }

  /** Everything below `tops` is manageable; of `tops` themselves nothing is asked. */
  ghost predicate Orderly<N>(F: Forest<N>, tops: set<N>) {
    forall x {:trigger OrderlyAt(F, tops, x)} :: x in F.up ==> OrderlyAt(F, tops, x)
  }

  lemma SettledIsOrderly<N>(F: Forest<N>, G: Forest<N>, tops: set<N>)
    requires Orderly(F, tops) && Settled(F, G, tops) && WellFormed(G)
    ensures Orderly(G, tops)
  {
    NotLarger(G.up.Keys, F.up.Keys);
    assert |G.up| == |G.up.Keys| && |F.up| == |F.up.Keys|;
    forall x | x in G.up
      ensures OrderlyAt(G, tops, x)
    {
      assert Fades(F, G, tops, x) && OrderlyAt(F, tops, x);
      if Doomed(G.up, tops, x) && x !in tops
        && !(|F.refs[x]| <= 1 && F.destructor[x] != Refuses && |F.up| <= MAX_DEPTH) {
        forall h | h in G.refs[x]
          ensures !Doomed(G.up, tops, h)
        {
          HandleAlive(G, x, h);
          assert Fades(F, G, tops, h);
        }
      }
    }
  }

  lemma CutStaysOrderly<N>(F: Forest<N>, B: Forest<N>, n: N, tops: set<N>)
    requires Orderly(F, tops) && n in tops && n in F.up
    requires B.up == F.up[n := None] && B.refs == F.refs && B.destructor == F.destructor
    ensures Orderly(B, tops)
  {
    AboveItself(F.up, n);
    assert B.up.Keys == F.up.Keys && |B.up| == |B.up.Keys| && |F.up| == |F.up.Keys|;
    forall x | x in B.up
      ensures OrderlyAt(B, tops, x)
    {
      assert OrderlyAt(F, tops, x);
      if Doomed(B.up, tops, x) && x !in tops {
        DoomedElsewhere(F.up, tops, n, None, x);
        forall h | h in B.refs[x] && !Doomed(F.up, tops, h)
          ensures !Doomed(B.up, tops, h)
        {
          if Doomed(B.up, tops, h) {
            DoomedElsewhere(F.up, tops, n, None, h);
          }
        }
      }
    }
  }

  lemma KidIsOrderly<N>(F: Forest<N>, c: N)
    requires c in F.up && F.up[c].Some? && F.up[c].value in F.loop && Orderly(F, F.loop.Keys)
    ensures Orderly(F, F.loop.Keys + {c})
  {
    var tops := F.loop.Keys + {c};
    forall x | x in F.up
      ensures OrderlyAt(F, tops, x)
    {
      assert OrderlyAt(F, F.loop.Keys, x);
      DoomedKid(F.up, F.loop.Keys, c, x);
      if Doomed(F.up, tops, x) && x !in tops {
        forall h | h in F.refs[x] && !Doomed(F.up, F.loop.Keys, h)
          ensures !Doomed(F.up, tops, h)
        {
          DoomedKid(F.up, F.loop.Keys, c, h);
        }
      }
    }
  }

  lemma OrderlyKidIsNotDangling<N>(F: Forest<N>, c: N)
    requires WellFormed(F) && c in F.up && c !in F.loop && F.up[c].Some? && F.up[c].value in F.loop
    requires Orderly(F, F.loop.Keys)
    ensures !Dangling(F, c)
  {
    assert OrderlyAt(F, F.loop.Keys, c);
    DoomedKid(F.up, F.loop.Keys, c, c);
    assert |F.refs[c]| <= 1 ==> forall k :: k in F.refs[c] ==> k == F.refs[c][0];
    if Dangling(F, c) {
      var h := F.refs[c][0];
      assert h in F.refs[c];
      HandleAlive(F, c, h);
      AboveStep(F.up, c, h);
      AboveItself(F.up, F.up[c].value);
      AboveStep(F.up, F.up[c].value, c);
      AboveTrans(F.up, F.up[c].value, c, h);
      assert Doomed(F.up, F.loop.Keys, h);
      ListsAgreeParents(F.up, F.kids);
      if |F.up| <= MAX_DEPTH {
        AboveIsSeen(F.up, c, h);
      }
    }
  }

  /** Whatever the order of siblings and references, freeing an orderly subtree loses nothing. */
  lemma {:induction false} OrderlyIsSafe<N>(F: Forest<N>, n: N)
    requires CanFree(F, n) && Orderly(F, F.loop.Keys + {n})
    ensures Free(F, n).lost == []
    decreases Live(F), 0
  {
    if F.refs[n] != [] {
      var h := F.refs[n][0];
      FirstReference(F, n, h);
      if Seen(F.up, n, h) {
        var G := FreeHandle(F, h);
        ReferenceFromBelow(F, n, h, G);
        SettledIsOrderly(F, G, F.loop.Keys + {n});
        OrderlyIsSafe(G, n);
      }
    } else if F.destructor[n] != Refuses {
      var B := Begin(Ran(F, n), n);
      BeginSettles(F, n);
      BegunFields(F, n);
      CutStaysOrderly(F, B, n, F.loop.Keys + {n});
      OrderlyKidsAreSafe(B, n);
    }
  }

  lemma {:induction false} OrderlyKidsAreSafe<N>(F: Forest<N>, n: N)
    requires CanFreeKids(F, n) && Orderly(F, F.loop.Keys)
    ensures FreeKids(F, n).lost == []
    decreases Live(F), |F.kids[n]| + 1
  {
    if F.kids[n] != [] {
      var c := F.kids[n][0];
      KidIsFreeable(F, n);
      var A := OrderlyTurn(F, n, c);
      SettledIsOrderly(F, A, F.loop.Keys);
      OrderlyKidsAreSafe(A, n);
    }
  }

  lemma OrderlyTurn<N>(F: Forest<N>, n: N, c: N) returns (A: Forest<N>)
    requires CanFreeKids(F, n) && Orderly(F, F.loop.Keys) && F.kids[n] != [] && c == F.kids[n][0]
    requires c in F.up && c in F.target && F.up[c] == Some(n) && c !in F.loop && (F.target[c].None? ==> CanFree(F, c))
    ensures CanFreeKids(A, n) && Settled(F, A, F.loop.Keys) && A.loop == F.loop
    ensures FreeKids(F, n).lost == FreeKids(A, n).lost
    ensures Live(A) < Live(F) || (Live(A) == Live(F) && |A.kids[n]| < |F.kids[n]|)
    decreases Live(F), |F.kids[n]|
  {
    if F.target[c].Some? {
      A := FreeHandle(F, c);
      KidSettled(F, n, A, true);
    } else {
      KidIsOrderly(F, c);
      OrderlyIsSafe(F, c);
      OrderlyKidIsNotDangling(F, c);
      TurnKeepsIff(F, n, c);
      A := AfterTurn(F, n, c);
      TurnSettles(F, n, c);
    }
  }

  lemma TurnSettles<N>(F: Forest<N>, n: N, c: N)
    requires CanFreeKids(F, n) && F.kids[n] != [] && c == F.kids[n][0] && c in F.target && F.target[c].None?
    requires CanFree(F, c)
    ensures Settled(F, AfterTurn(F, n, c), F.loop.Keys) && n in AfterTurn(F, n, c).kids
    ensures AfterTurn(F, n, c).loop == F.loop
    ensures var A := AfterTurn(F, n, c);
      Live(A) < Live(F) || (Live(A) == Live(F) && |A.kids[n]| < |F.kids[n]|)
  {
    hide Above, Seen, Undisputed, Settled, Steal, Free, Dangling;
    var r := Free(F, c);
    KidSettled(F, n, r.after, r.ok);
    if !r.ok {
      KidIsFreeable(F, n);
      HeirFits(F, n, r.after);
      AbandonSettles(F, n, r.after, c, Heir(F, n, c));
      AbandonShrinks(F, n, r.after, c, Heir(F, n, c));
    }
    SameLoop(F, AfterTurn(F, n, c), F.loop.Keys);
  }

  lemma SameLoop<N>(F: Forest<N>, G: Forest<N>, tops: set<N>)
    requires Settled(F, G, tops)
    ensures G.loop == F.loop
  {
  }
}
