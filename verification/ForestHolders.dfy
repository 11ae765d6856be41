/**
 Chunks with several parents (talloc/talloc.c:1350-1490): every `talloc_unlink` removes exactly one
 holder, and the last one destroys the chunk.
 */
module ForestHolders {
  import opened Wrappers
  import opened Forests
  import opened ForestSteps
  import opened ForestFree

  /** Nothing is being freed. */
  ghost predicate Quiet<N>(F: Forest<N>) {
    WellFormed(F) && F.loop == map[]
  }

  /** The parents of some chunks, the null context as None. */
  ghost function Owners<N>(up: map<N, Option<N>>, s: seq<N>): (r: seq<Option<N>>)
    requires forall h :: h in s ==> h in up
    ensures |r| == |s| && forall i :: 0 <= i < |s| ==> r[i] == up[s[i]]
  {
    seq(|s|, i requires 0 <= i < |s| => up[s[i]])
  }

  ghost predicate Known<N>(F: Forest<N>, t: N) {
    && ProperChunk(F, t) && t in F.refs && t in F.destructor
    && forall h :: h in F.refs[t] ==> h in F.up && h in F.target && F.target[h] == Some(t) && h != t
  }

  /** All parents of a chunk: its own and those of its references. */
  ghost function Holders<N>(F: Forest<N>, t: N): multiset<Option<N>>
    requires Known(F, t)
  {
    multiset{F.up[t]} + multiset(Owners(F.up, F.refs[t]))
  }

  /** The most recent of some references that `context` holds. */
  ghost function HeldBy<N>(up: map<N, Option<N>>, s: seq<N>, context: Option<N>): (r: Option<N>)
    requires forall h :: h in s ==> h in up
    ensures r.Some? ==> r.value in s && up[r.value] == context
    ensures r.None? ==> context !in Owners(up, s)
  {
    if s == [] then None
    else if up[s[0]] == context then Some(s[0])
    else
      assert Owners(up, s) == [up[s[0]]] + Owners(up, s[1..]);
      HeldBy(up, s[1..], context)
  }

  /** `h` is the most recent of the references `s` that `context` holds. */
  ghost predicate MostRecent<N>(up: map<N, Option<N>>, s: seq<N>, context: Option<N>, h: N)
    requires forall k :: k in s ==> k in up
  {
    h in s && up[h] == context
    && exists i :: 0 <= i < |s| && s[i] == h && forall j :: 0 <= j < i ==> up[s[j]] != context
  }

  lemma {:induction false} HeldByIsMostRecent<N>(up: map<N, Option<N>>, s: seq<N>, context: Option<N>)
    requires forall k :: k in s ==> k in up
    ensures HeldBy(up, s, context).Some? ==> MostRecent(up, s, context, HeldBy(up, s, context).value)
    ensures HeldBy(up, s, context).Some? <==> context in Owners(up, s)
    decreases |s|
  {
    if s != [] {
      assert Owners(up, s) == [up[s[0]]] + Owners(up, s[1..]);
      if up[s[0]] == context {
        assert s[0] in s;
      } else {
        HeldByIsMostRecent(up, s[1..], context);
        if HeldBy(up, s[1..], context).Some? {
          var h := HeldBy(up, s[1..], context).value;
          var i :| 0 <= i < |s[1..]| && s[1..][i] == h && forall j :: 0 <= j < i ==> up[s[1..][j]] != context;
          assert s[i + 1] == h;
          forall j | 0 <= j < i + 1
            ensures up[s[j]] != context
          {
            assert j > 0 ==> s[j] == s[1..][j - 1];
          }
        }
      }
    }
  }

  /** talloc_unreference. */
  ghost function Unreference<N>(F: Forest<N>, context: Option<N>, t: N): (Forest<N>, bool)
    requires WellFormed(F) && Known(F, t)
  {
    match HeldBy(F.up, F.refs[t], context)
    case None => (F, false)
    case Some(h) => (FreeHandle(F, h), true)
  }

  /** The unlink that frees the chunk is not that of a chunk on a cycle. */
  ghost predicate CanUnlink<N>(F: Forest<N>, context: Option<N>, t: N) {
    Quiet(F) && Known(F, t) && (context == F.up[t] && F.refs[t] == [] ==> !Cyclic(F.up, t))
  }

  /** talloc_unlink.  The holder of the most recent reference takes over from the parent. */
  ghost function Unlink<N>(F: Forest<N>, context: Option<N>, t: N): Outcome<N>
    requires CanUnlink(F, context, t)
  {
    var r := Unreference(F, context, t);
    if r.1 then Done(r.0, true, [])
    else if context != F.up[t] then Done(F, false, [])
    else if F.refs[t] == [] then Free(F, t)
    else
      var h := F.refs[t][0];
      HandleGone(F, h);
      var p := F.up[h];
      HolderIsProper(F, t, h);
      var s := Unreference(F, p, t);
      if !s.1 then Done(s.0, false, [])
      else Done(Steal(s.0, t, p), true, if IsBelow(s.0.up, t, p) then [t] else [])
  }

  lemma KnownChunk<N>(F: Forest<N>, t: N)
    requires WellFormed(F) && ProperChunk(F, t)
    ensures Known(F, t)
  {
    forall h | h in F.refs[t]
      ensures h in F.up && h in F.target && F.target[h] == Some(t) && h != t
    {
      HandleAlive(F, t, h);
    }
  }

  lemma HolderIsProper<N>(F: Forest<N>, t: N, h: N)
    requires WellFormed(F) && Known(F, t) && h in F.refs[t]
    ensures WellFormed(FreeHandle(F, h)) && t in FreeHandle(F, h).up
    ensures F.up[h].Some? ==> ProperChunk(FreeHandle(F, h), F.up[h].value)
  {
    HandleGone(F, h);
    if F.up[h].Some? {
      ParentIsProper(F, h);
    }
  }

  /** No holder of `t` is below `t`. */
  ghost predicate HeldFromElsewhere<N>(F: Forest<N>, t: N)
    requires Known(F, t)
  {
    !Cyclic(F.up, t) && forall h :: h in F.refs[t] ==> !Above(F.up, t, h)
  }

  // ----- One reference less -----

  lemma OwnersCons<N>(up: map<N, Option<N>>, x: N, s: seq<N>)
    requires x in up && forall k :: k in s ==> k in up
    ensures forall k :: k in [x] + s ==> k in up
    ensures Owners(up, [x] + s) == [up[x]] + Owners(up, s)
    ensures multiset(Owners(up, [x] + s)) == multiset{up[x]} + multiset(Owners(up, s))
  {
  }

  lemma {:induction false} OwnersWithout<N>(up: map<N, Option<N>>, s: seq<N>, h: N)
    requires NoDuplicates(s) && h in s && forall k :: k in s ==> k in up
    ensures forall k :: k in Without(s, h) ==> k in up - {h}
    ensures multiset(Owners(up, s)) == multiset(Owners(up - {h}, Without(s, h))) + multiset{up[h]}
    decreases |s|
  {
    var x, rest := s[0], s[1..];
    assert s == [x] + rest;
    assert NoDuplicates(rest);
    OwnersCons(up, x, rest);
    if x == h {
      assert Without(s, h) == rest;
      SameOwners(up, rest, h);
    } else {
      var less := Without(rest, h);
      assert Without(s, h) == [x] + less;
      OwnersWithout(up, rest, h);
      OwnersOneMore(up, x, less, h);
    }
  }

  lemma OwnersOneMore<N>(up: map<N, Option<N>>, x: N, less: seq<N>, h: N)
    requires x in up && x != h && forall k :: k in less ==> k in up - {h}
    ensures forall k :: k in [x] + less ==> k in up - {h}
    ensures multiset(Owners(up - {h}, [x] + less)) == multiset{up[x]} + multiset(Owners(up - {h}, less))
  {
    OwnersCons(up - {h}, x, less);
  }

  lemma SameOwners<N>(up: map<N, Option<N>>, s: seq<N>, h: N)
    requires h !in s && forall k :: k in s ==> k in up
    ensures forall k :: k in s ==> k in up - {h}
    ensures Owners(up, s) == Owners(up - {h}, s)
  {
  }

  lemma ReferenceGone<N>(F: Forest<N>, t: N, h: N)
    requires Quiet(F) && Known(F, t) && h in F.refs[t]
    ensures Quiet(FreeHandle(F, h)) && Known(FreeHandle(F, h), t)
    ensures Holders(F, t) == Holders(FreeHandle(F, h), t) + multiset{F.up[h]}
    ensures FreeHandle(F, h).up == F.up - {h} && FreeHandle(F, h).destructor[t] == F.destructor[t]
    ensures FreeHandle(F, h).refs[t] == Without(F.refs[t], h)
    ensures HeldFromElsewhere(F, t) ==> HeldFromElsewhere(FreeHandle(F, h), t)
  {
    var G := FreeHandle(F, h);
    HandleGone(F, h);
    KnownChunk(G, t);
    OwnersWithout(F.up, F.refs[t], h);
    if HeldFromElsewhere(F, t) {
      Childless(F, h);
      if F.up[t].Some? {
        AboveWithout(F.up, h, t, F.up[t].value);
      }
      forall k | k in G.refs[t]
        ensures !Above(G.up, t, k)
      {
        WithoutMember(F.refs[t], h, k);
        AboveWithout(F.up, h, t, k);
      }
    }
  }

  /** What one unlink leaves of a chunk that has another holder. */
  ghost predicate OneHolderLess<N>(F: Forest<N>, G: Forest<N>, context: Option<N>, t: N)
    requires Known(F, t)
  {
    && Quiet(G) && Known(G, t) && HeldFromElsewhere(G, t)
    && G.destructor[t] == F.destructor[t]
    && Holders(F, t) == Holders(G, t) + multiset{context}
  }

  ghost predicate OneLess<N>(F: Forest<N>, r: Outcome<N>, context: Option<N>, t: N)
    requires Known(F, t)
  {
    r.ok && r.lost == [] && OneHolderLess(F, r.after, context, t)
  }

  lemma UnlinkReference<N>(F: Forest<N>, context: Option<N>, t: N)
    requires Quiet(F) && Known(F, t) && HeldFromElsewhere(F, t) && HeldBy(F.up, F.refs[t], context).Some?
    ensures OneLess(F, Unlink(F, context, t), context, t)
  {
    var h := HeldBy(F.up, F.refs[t], context).value;
    ReferenceGone(F, t, h);
  }

  /** The most recent reference takes over when the parent unlinks. */
  lemma UnlinkParent<N>(F: Forest<N>, t: N)
    requires Quiet(F) && Known(F, t) && HeldFromElsewhere(F, t) && F.refs[t] != []
    requires HeldBy(F.up, F.refs[t], F.up[t]).None?
    ensures OneLess(F, Unlink(F, F.up[t], t), F.up[t], t)
  {
    var h := F.refs[t][0];
    assert h in F.refs[t];
    var A := FreeHandle(F, h);
    assert HeldBy(F.up, F.refs[t], F.up[h]) == Some(h);
    ReferenceGone(F, t, h);
    if F.up[h].Some? {
      HolderFitsFor(F, t, h);
    }
    TakeOver(A, t, F.up[h]);
    assert Unlink(F, F.up[t], t) == Done(Steal(A, t, F.up[h]), true, []);
  }

  lemma HolderFitsFor<N>(F: Forest<N>, t: N, h: N)
    requires WellFormed(F) && Known(F, t) && h in F.refs[t] && !Above(F.up, t, h) && F.up[h].Some?
    ensures ProperChunk(FreeHandle(F, h), F.up[h].value) && !Above(FreeHandle(F, h).up, t, F.up[h].value)
  {
    HandleGone(F, h);
    HolderIsProper(F, t, h);
    AboveStep(F.up, t, h);
    Childless(F, h);
    AboveWithout(F.up, h, t, F.up[h].value);
  }

  lemma StealFields<N>(A: Forest<N>, t: N, p: Option<N>)
    requires t in A.up && ListsAgree(A.up, A.kids) && (p.Some? ==> p.value in A.up)
    ensures var B := Steal(A, t, p);
      && B.refs == A.refs && B.target == A.target && B.destructor == A.destructor && B.loop == A.loop && B.ran == A.ran
  {
  }

  lemma HolderMoved<N>(A: Forest<N>, B: Forest<N>, t: N, p: Option<N>)
    requires Known(A, t) && Known(B, t) && B.refs == A.refs && B.up == A.up[t := p]
    ensures Holders(B, t) + multiset{A.up[t]} == Holders(A, t) + multiset{p}
  {
    assert Owners(B.up, B.refs[t]) == Owners(A.up, A.refs[t]);
  }

  lemma TakeOver<N>(A: Forest<N>, t: N, p: Option<N>)
    requires Quiet(A) && Known(A, t) && HeldFromElsewhere(A, t)
    requires p.Some? ==> ProperChunk(A, p.value) && !Above(A.up, t, p.value)
    ensures Quiet(Steal(A, t, p)) && Known(Steal(A, t, p), t) && HeldFromElsewhere(Steal(A, t, p), t)
    ensures Holders(Steal(A, t, p), t) + multiset{A.up[t]} == Holders(A, t) + multiset{p}
    ensures Steal(A, t, p).destructor == A.destructor
  {
    hide Steal, Holders;
    var B := Steal(A, t, p);
    AboveItself(A.up, t);
    StealKeeps(A, t, p);
    StealFields(A, t, p);
    KnownChunk(B, t);
    HolderMoved(A, B, t, p);
    if p.Some? {
      SameBelow(A.up, t, p, p.value);
    }
    forall h | h in B.refs[t]
      ensures !Above(B.up, t, h)
    {
      SameBelow(A.up, t, p, h);
    }
  }

  /** An unlink by the holder of a reference frees its most recent reference and nothing else. */
  lemma UnlinkFreesReference<N>(F: Forest<N>, context: Option<N>, t: N) returns (h: N)
    requires Quiet(F) && Known(F, t) && context in Owners(F.up, F.refs[t])
    ensures MostRecent(F.up, F.refs[t], context, h)
    ensures CanUnlink(F, context, t) && Unlink(F, context, t).ok && Unlink(F, context, t).after.up == F.up - {h}
    ensures t in Unlink(F, context, t).after.refs
    ensures Unlink(F, context, t).after.refs[t] == Without(F.refs[t], h)
  {
    HeldByIsMostRecent(F.up, F.refs[t], context);
    h := HeldBy(F.up, F.refs[t], context).value;
    ReferenceGone(F, t, h);
  }

  /** An unlink by one of several holders takes exactly that holder away; the chunk lives on. */
  lemma UnlinkOne<N>(F: Forest<N>, context: Option<N>, t: N)
    requires Quiet(F) && Known(F, t) && HeldFromElsewhere(F, t) && context in Holders(F, t) && |Holders(F, t)| > 1
    ensures OneLess(F, Unlink(F, context, t), context, t)
  {
    if HeldBy(F.up, F.refs[t], context).Some? {
      UnlinkReference(F, context, t);
    } else {
      UnlinkParent(F, t);
    }
  }

  /** A stranger unlinks nothing. */
  lemma UnlinkByStranger<N>(F: Forest<N>, context: Option<N>, t: N)
    requires Quiet(F) && Known(F, t) && context !in Holders(F, t)
    ensures Unlink(F, context, t) == Done(F, false, [])
  {
  }

  /** The unlink by the only holder frees the chunk: it is destroyed unless its destructor refuses. */
  lemma UnlinkLast<N>(F: Forest<N>, context: Option<N>, t: N)
    requires CanUnlink(F, context, t) && Holders(F, t) == multiset{context}
    ensures CanFree(F, t) && Unlink(F, context, t) == Free(F, t)
    ensures Free(F, t).ok <==> t !in Free(F, t).after.up
    ensures Free(F, t).ok <==> F.destructor[t] != Refuses
    ensures Quiet(Free(F, t).after)
  {
    assert |Holders(F, t)| == 1 + |F.refs[t]|;
    assert context in multiset{context};
  }

  /** The holders unlink one after the other. */
  ghost function UnlinkAll<N>(F: Forest<N>, t: N, order: seq<Option<N>>): Outcome<N>
    decreases |order|
  {
    if order == [] || !CanUnlink(F, order[0], t) then Done(F, true, [])
    else
      var r := Unlink(F, order[0], t);
      var s := UnlinkAll(r.after, t, order[1..]);
      Done(s.after, s.ok, r.lost + s.lost)
  }

  /**
   A chunk held by a parent and n - 1 references, none of them below itself, lives through the first
   n - 1 unlinks and is destroyed by the n-th, in whatever order its holders unlink.  Nothing is lost
   before the n-th.
   */
  lemma {:induction false} DestroyedByTheLast<N>(F: Forest<N>, t: N, order: seq<Option<N>>, i: nat)
    requires Quiet(F) && Known(F, t) && HeldFromElsewhere(F, t) && F.destructor[t] != Refuses
    requires multiset(order) == Holders(F, t) && i <= |order|
    ensures i < |order| ==> t in UnlinkAll(F, t, order[..i]).after.up && UnlinkAll(F, t, order[..i]).lost == []
    ensures i == |order| ==> t !in UnlinkAll(F, t, order).after.up
    decreases |order|
  {
    hide Unlink, Free, HeldFromElsewhere, Holders;
    assert i == |order| ==> order[..i] == order;
    if i == 0 {
      SomeHolder(F, t, order);
    } else if |order| == 1 {
      OnlyHolder(F, t, order);
    } else {
      NextHolder(F, t, order);
      UnlinkAllStep(F, t, order, i);
      var rest := order[1..];
      assert i == |order| ==> rest[..i - 1] == rest;
      DestroyedByTheLast(Unlink(F, order[0], t).after, t, rest, i - 1);
    }
  }

  lemma SomeHolder<N>(F: Forest<N>, t: N, order: seq<Option<N>>)
    requires Known(F, t) && multiset(order) == Holders(F, t)
    ensures order != []
  {
    assert |order| == |multiset(order)| == 1 + |F.refs[t]|;
  }

  lemma OnlyHolder<N>(F: Forest<N>, t: N, order: seq<Option<N>>)
    requires Quiet(F) && Known(F, t) && HeldFromElsewhere(F, t)
    requires F.destructor[t] != Refuses && multiset(order) == Holders(F, t) && |order| == 1
    ensures t !in UnlinkAll(F, t, order).after.up
  {
    hide Unlink, Free;
    SplitOrder(order);
    assert order[1..] == [];
    UnlinkLast(F, order[0], t);
  }

  lemma NextHolder<N>(F: Forest<N>, t: N, order: seq<Option<N>>)
    requires Quiet(F) && Known(F, t) && HeldFromElsewhere(F, t) && F.destructor[t] != Refuses
    requires multiset(order) == Holders(F, t) && |order| > 1
    ensures CanUnlink(F, order[0], t) && Unlink(F, order[0], t).lost == []
    ensures var G := Unlink(F, order[0], t).after;
      && Quiet(G) && Known(G, t) && HeldFromElsewhere(G, t) && G.destructor[t] != Refuses
      && multiset(order[1..]) == Holders(G, t)
  {
    hide Unlink, HeldFromElsewhere;
    SplitOrder(order);
    assert |Holders(F, t)| == |order| && F.refs[t] != [];
    UnlinkOne(F, order[0], t);
    CancelOne(multiset(order[1..]), Holders(Unlink(F, order[0], t).after, t), order[0]);
  }

  lemma CancelOne<X>(a: multiset<X>, b: multiset<X>, x: X)
    requires a + multiset{x} == b + multiset{x}
    ensures a == b
  {
    assert a == a + multiset{x} - multiset{x};
    assert b == b + multiset{x} - multiset{x};
  }

  lemma SplitOrder<X>(order: seq<X>)
    requires order != []
    ensures multiset(order) == multiset(order[1..]) + multiset{order[0]} && order[0] in multiset(order)
  {
    assert order == [order[0]] + order[1..];
  }

  lemma UnlinkAllStep<N>(F: Forest<N>, t: N, order: seq<Option<N>>, i: nat)
    requires 0 < i <= |order| && CanUnlink(F, order[0], t)
    ensures var r := Unlink(F, order[0], t);
      var s := UnlinkAll(r.after, t, order[1..][..i - 1]);
      UnlinkAll(F, t, order[..i]) == Done(s.after, s.ok, r.lost + s.lost)
  {
    assert order[..i][1..] == order[1..][..i - 1] && order[..i][0] == order[0];
  }
}
