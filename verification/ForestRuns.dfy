/**
 Whole runs of talloc/talloc.c's operations on the hierarchy (:739-819, 1001-1021, 1260-1380,
 1414-1490).
 */
module ForestRuns {
  import opened Wrappers
  import opened Forests
  import opened ForestSteps
  import opened ForestFree
  import opened ForestCycles
  import opened ForestHolders

  datatype Op<N> =
    | Allocate(n: N, parent: Option<N>, destructor: Destructor)
    | Move(n: N, parent: Option<N>)
    | Reference(h: N, parent: Option<N>, n: N)
    | Reparent(before: Option<N>, parent: Option<N>, n: N)
    | Unlinking(context: Option<N>, n: N)
    | Freeing(n: N)

  ghost predicate Existing<N>(F: Forest<N>, p: Option<N>) {
    p.Some? ==> ProperChunk(F, p.value)
  }

  /**
   What a caller owes: the chunks exist, and one that is on a cycle is not freed.  Such a chunk can be
   the child of its own descendant, whose memory would go while the chunk still keeps it as a parent.
   */
  ghost predicate Allowed<N>(F: Forest<N>, op: Op<N>) {
    match op
    case Allocate(n, p, d) => n !in F.up && Existing(F, p)
    case Move(n, p) => ProperChunk(F, n) && Existing(F, p)
    case Reference(h, p, n) => h !in F.up && Existing(F, p) && ProperChunk(F, n)
    case Reparent(_, p, n) => ProperChunk(F, n) && Existing(F, p)
    case Unlinking(context, n) => ProperChunk(F, n) && (context == F.up[n] ==> FreeableIfBare(F, n))
    case Freeing(n) => ProperChunk(F, n) && FreeableIfBare(F, n)
  }

  ghost predicate FreeableIfBare<N>(F: Forest<N>, n: N) {
    n in F.refs && F.refs[n] == [] ==> !Cyclic(F.up, n)
  }

  /** _talloc_reference_loc: a handle below `p` that references `t`. */
  ghost function Refer<N>(F: Forest<N>, h: N, p: Option<N>, t: N): Forest<N>
    requires Quiet(F) && h !in F.up && Existing(F, p) && ProperChunk(F, t)
  {
    AllocKeeps(F, h, p, NoDestructor);
    Cite(Alloc(F, h, p, NoDestructor), h, t)
  }

  /** talloc_steal. */
  ghost function Moved<N>(F: Forest<N>, n: N, p: Option<N>): Outcome<N>
    requires Quiet(F) && n in F.up && Existing(F, p)
  {
    Done(Steal(F, n, p), true, if IsBelow(F.up, n, p) then [n] else [])
  }

  /** talloc_reparent: the chunk moves, or the most recent reference that `before` holds. */
  ghost function Rehome<N>(F: Forest<N>, before: Option<N>, p: Option<N>, n: N): Outcome<N>
    requires Quiet(F) && ProperChunk(F, n) && Existing(F, p)
  {
    KnownChunk(F, n);
    if before == F.up[n] then Moved(F, n, p)
    else
      match HeldBy(F.up, F.refs[n], before)
      case None => Done(F, false, [])
      case Some(h) => Moved(F, h, p)
  }

  /** talloc_free: a chunk with references is not freed, but a root with one reference is given to its holder. */
  ghost function TallocFree<N>(F: Forest<N>, n: N): Outcome<N>
    requires Quiet(F) && Known(F, n) && FreeableIfBare(F, n)
  {
    if F.refs[n] == [] then Free(F, n)
    else if F.up[n].None? && |F.refs[n]| == 1 then Unlink(F, None, n)
    else Done(F, false, [])
  }

  ghost function Do<N>(F: Forest<N>, op: Op<N>): Outcome<N>
    requires Quiet(F) && Allowed(F, op)
  {
    match op
    case Allocate(n, p, d) => Done(Alloc(F, n, p, d), true, [])
    case Move(n, p) => Moved(F, n, p)
    case Reference(h, p, n) => Done(Refer(F, h, p, n), true, [])
    case Reparent(before, p, n) => Rehome(F, before, p, n)
    case Unlinking(context, n) =>
      KnownChunk(F, n);
      Unlink(F, context, n)
    case Freeing(n) =>
      KnownChunk(F, n);
      TallocFree(F, n)
  }

  // ----- Every operation keeps the hierarchy -----

  lemma QuietIsClear<N>(F: Forest<N>, n: N)
    requires F.loop == map[]
    ensures Clear(F, n)
  {
  }

  lemma ReferKeeps<N>(F: Forest<N>, h: N, p: Option<N>, t: N)
    requires Quiet(F) && h !in F.up && Existing(F, p) && ProperChunk(F, t)
    ensures Quiet(Refer(F, h, p, t)) && Known(Refer(F, h, p, t), t) && Known(F, t)
    ensures Holders(Refer(F, h, p, t), t) == Holders(F, t) + multiset{p}
    ensures Refer(F, h, p, t).refs[t] == [h] + F.refs[t] && Refer(F, h, p, t).up == F.up[h := p]
  {
    AllocKeeps(F, h, p, NoDestructor);
    var A := Alloc(F, h, p, NoDestructor);
    CiteKeeps(A, h, t);
    var G := Refer(F, h, p, t);
    KnownChunk(F, t);
    KnownChunk(G, t);
    OwnersCons(G.up, h, F.refs[t]);
    assert Owners(G.up, F.refs[t]) == Owners(F.up, F.refs[t]);
  }

  /** What an operation does to cycles, if there were none. */
  ghost predicate ClosesIff<N>(F: Forest<N>, r: Outcome<N>) {
    && Quiet(r.after)
    && (Grounded(F.up) ==> (Grounded(r.after.up) <==> r.lost == []))
  }

  /** A move closes a cycle exactly when the new owner lies strictly below the chunk. */
  lemma MoveKeepsIff<N>(F: Forest<N>, n: N, p: Option<N>)
    requires Quiet(F) && n in F.up && Existing(F, p)
    ensures Quiet(Moved(F, n, p).after)
    ensures Grounded(F.up) ==> (Grounded(Moved(F, n, p).after.up) <==> !IsBelow(F.up, n, p))
  {
    QuietIsClear(F, n);
    StealKeeps(F, n, p);
    if Grounded(F.up) {
      StealKeepsIff(F, n, p);
    }
  }

  lemma RehomeKeeps<N>(F: Forest<N>, before: Option<N>, p: Option<N>, n: N)
    requires Quiet(F) && ProperChunk(F, n) && Existing(F, p)
    ensures ClosesIff(F, Rehome(F, before, p, n))
  {
    KnownChunk(F, n);
    if before == F.up[n] {
      MoveKeepsIff(F, n, p);
    } else if HeldBy(F.up, F.refs[n], before).Some? {
      var h := HeldBy(F.up, F.refs[n], before).value;
      HandleGone(F, h);
      MoveKeepsIff(F, h, p);
    }
  }

  lemma OwnersUpdated<N>(up: map<N, Option<N>>, s: seq<N>, i: nat, p: Option<N>)
    requires NoDuplicates(s) && i < |s| && forall k :: k in s ==> k in up
    ensures Owners(up[s[i] := p], s) == Owners(up, s)[i := p]
    ensures multiset(Owners(up[s[i] := p], s)) + multiset{up[s[i]]} == multiset(Owners(up, s)) + multiset{p}
  {
  }

  /**
   talloc_reparent replaces one holder by another.  If that is the parent, the chunk moves; otherwise the
   most recent reference that it holds moves, and no other parent changes.  A stranger changes nothing.
   */
  lemma RehomeMeans<N>(F: Forest<N>, before: Option<N>, p: Option<N>, n: N)
    requires Quiet(F) && ProperChunk(F, n) && Existing(F, p)
    ensures Known(F, n) && Known(Rehome(F, before, p, n).after, n)
    ensures before !in Holders(F, n) ==> Rehome(F, before, p, n) == Done(F, false, [])
    ensures before in Holders(F, n) ==> Rehome(F, before, p, n).ok
    ensures before == F.up[n] ==> Rehome(F, before, p, n).after.up == if p == Some(n) then F.up else F.up[n := p]
    ensures before != F.up[n] && before in Holders(F, n) ==>
      exists h :: h in F.refs[n] && MostRecent(F.up, F.refs[n], before, h)
                  && Rehome(F, before, p, n).after.up == F.up[h := p]
    ensures before in Holders(F, n) && p != Some(n) ==>
      Holders(Rehome(F, before, p, n).after, n) + multiset{before} == Holders(F, n) + multiset{p}
    ensures var G := Rehome(F, before, p, n).after;
      G.refs == F.refs && G.target == F.target && G.destructor == F.destructor && G.ran == F.ran
  {
    hide Grounded, Above, Cyclic, Steal;
    KnownChunk(F, n);
    RehomeKeeps(F, before, p, n);
    var G := Rehome(F, before, p, n).after;
    HeldByIsMostRecent(F.up, F.refs[n], before);
    if before == F.up[n] {
      ParentMoves(F, p, n);
    } else if HeldBy(F.up, F.refs[n], before).Some? {
      HandleMoves(F, before, p, n, HeldBy(F.up, F.refs[n], before).value);
    }
  }

  lemma ParentMoves<N>(F: Forest<N>, p: Option<N>, n: N)
    requires Quiet(F) && Known(F, n) && Existing(F, p)
    ensures var G := Steal(F, n, p);
      && Known(G, n) && G.up == (if p == Some(n) then F.up else F.up[n := p])
      && G.refs == F.refs && G.target == F.target && G.destructor == F.destructor && G.ran == F.ran
      && (p != Some(n) ==> Holders(G, n) + multiset{F.up[n]} == Holders(F, n) + multiset{p})
  {
    hide Steal;
    QuietIsClear(F, n);
    StealKeeps(F, n, p);
    StealFields(F, n, p);
    KnownChunk(Steal(F, n, p), n);
    if p != Some(n) {
      HolderMoved(F, Steal(F, n, p), n, p);
    }
  }

  lemma HandleMoves<N>(F: Forest<N>, before: Option<N>, p: Option<N>, n: N, h: N)
    requires Quiet(F) && Known(F, n) && Existing(F, p) && h in F.refs[n] && F.up[h] == before
    ensures var G := Steal(F, h, p);
      && Known(G, n) && G.up == F.up[h := p]
      && G.refs == F.refs && G.target == F.target && G.destructor == F.destructor && G.ran == F.ran
      && Holders(G, n) + multiset{before} == Holders(F, n) + multiset{p}
  {
    hide Steal, Above, ListsAgree, HandlesAreLeaves, LoopAgrees;
    HandleGone(F, h);
    QuietIsClear(F, h);
    StealKeeps(F, h, p);
    StealFields(F, h, p);
    KnownChunk(Steal(F, h, p), n);
    ReferenceMoved(F, Steal(F, h, p), n, h, p);
  }

  lemma ReferenceMoved<N>(F: Forest<N>, G: Forest<N>, n: N, h: N, p: Option<N>)
    requires Known(F, n) && Known(G, n) && h in F.refs[n] && NoDuplicates(F.refs[n])
    requires G.refs == F.refs && G.up == F.up[h := p]
    ensures Holders(G, n) + multiset{F.up[h]} == Holders(F, n) + multiset{p}
  {
    var i :| 0 <= i < |F.refs[n]| && F.refs[n][i] == h;
    OwnersUpdated(F.up, F.refs[n], i, p);
  }

  /** What the parent's unlink leaves of a chunk whose references are held by others. */
  lemma TakenOver<N>(F: Forest<N>, n: N, h: N)
    requires Quiet(F) && Known(F, n) && F.refs[n] != [] && h == F.refs[n][0]
    requires HeldBy(F.up, F.refs[n], F.up[n]).None?
    ensures CanUnlink(F, F.up[n], n) && h in F.up && h in F.target && F.target[h].Some?
    ensures var A := FreeHandle(F, h);
      && Quiet(A) && n in A.up && Existing(A, F.up[h]) && (IsBelow(A.up, n, F.up[h]) <==> IsBelow(F.up, n, F.up[h]))
      && (Grounded(F.up) ==> Grounded(A.up))
      && Unlink(F, F.up[n], n) == Moved(A, n, F.up[h])
  {
    assert h in F.refs[n];
    assert HeldBy(F.up, F.refs[n], F.up[h]) == Some(h);
    ReferenceGone(F, n, h);
    HolderIsProper(F, n, h);
    HandleGone(F, h);
    HandleBreaksNothing(F, h);
    if F.up[h].Some? {
      Childless(F, h);
      AboveWithout(F.up, h, n, F.up[h].value);
    }
  }

  /** The parent's unlink closes a cycle exactly when the most recent reference is held strictly below the chunk. */
  lemma TakeOverIff<N>(F: Forest<N>, n: N)
    requires Quiet(F) && Known(F, n) && F.refs[n] != [] && HeldBy(F.up, F.refs[n], F.up[n]).None?
    ensures F.refs[n][0] in F.up && CanUnlink(F, F.up[n], n)
    ensures Grounded(F.up) ==>
      (Grounded(Unlink(F, F.up[n], n).after.up) <==> !IsBelow(F.up, n, F.up[F.refs[n][0]]))
    ensures var h := F.refs[n][0];
      Unlink(F, F.up[n], n).after.up == if F.up[h] == Some(n) then F.up - {h} else (F.up - {h})[n := F.up[h]]
  {
    var h := F.refs[n][0];
    TakenOver(F, n, h);
    HandleGone(F, h);
    MoveKeepsIff(FreeHandle(F, h), n, F.up[h]);
    QuietIsClear(FreeHandle(F, h), n);
    StealKeeps(FreeHandle(F, h), n, F.up[h]);
  }

  lemma UnlinkKeeps<N>(F: Forest<N>, context: Option<N>, n: N)
    requires CanUnlink(F, context, n)
    ensures ClosesIff(F, Unlink(F, context, n))
  {
    hide Grounded, Above, Cyclic;
    var held := HeldBy(F.up, F.refs[n], context);
    if held.Some? {
      ReferenceGone(F, n, held.value);
      HandleBreaksNothing(F, held.value);
    } else if context == F.up[n] {
      if F.refs[n] == [] {
        FreeKeeps(F, n);
      } else {
        var h := F.refs[n][0];
        TakenOver(F, n, h);
        MoveKeepsIff(FreeHandle(F, h), n, F.up[h]);
      }
    }
  }

  lemma FreeKeeps<N>(F: Forest<N>, n: N)
    requires Quiet(F) && CanFree(F, n)
    ensures ClosesIff(F, Free(F, n))
  {
    FreeKeepsIff(F, n);
    assert Freed(F, n, Free(F, n).after, Free(F, n).ok);
  }

  /**
   talloc_free of a chunk with references fails and changes nothing, unless the chunk is a root with a
   single reference: that goes, and its holder becomes the parent.
   */
  lemma FreeOfReferenced<N>(F: Forest<N>, n: N)
    requires Quiet(F) && Known(F, n) && F.refs[n] != []
    ensures var r, h := TallocFree(F, n), F.refs[n][0];
      && h in F.up && n in r.after.up && n in r.after.refs
      && (r.ok <==> F.up[n].None? && |F.refs[n]| == 1)
      && (!r.ok ==> r.after == F)
      && (r.ok ==> r.after.refs[n] == []
                   && r.after.up == if F.up[h] == Some(n) then F.up - {h} else (F.up - {h})[n := F.up[h]])
  {
    var h := F.refs[n][0];
    assert h in F.refs[n] && F.refs[n][0] == h;
    if F.up[n].None? && |F.refs[n]| == 1 {
      assert F.refs[n] == [h];
      ReferenceGone(F, n, h);
      HandleGone(F, h);
      var A := FreeHandle(F, h);
      assert Without([h], h) == [];
      if F.up[h].Some? {
        TakenOver(F, n, h);
        QuietIsClear(A, n);
        StealKeeps(A, n, F.up[h]);
        StealFields(A, n, F.up[h]);
      } else {
        assert (F.up - {h})[n := F.up[h]] == F.up - {h};
      }
    }
  }

  /** Every operation keeps the hierarchy well formed, and closes a cycle exactly when it loses a chunk. */
  lemma DoKeeps<N>(F: Forest<N>, op: Op<N>)
    requires Quiet(F) && Allowed(F, op)
    ensures Quiet(Do(F, op).after)
    ensures Grounded(F.up) ==> (Grounded(Do(F, op).after.up) <==> Do(F, op).lost == [])
  {
    match op
    case Allocate(n, p, d) =>
      AllocKeeps(F, n, p, d);
      if Grounded(F.up) {
        AllocKeepsGrounded(F, n, p, d);
      }
    case Move(n, p) => MoveKeepsIff(F, n, p);
    case Reference(h, p, n) =>
      ReferKeeps(F, h, p, n);
      if Grounded(F.up) {
        AllocKeepsGrounded(F, h, p, NoDestructor);
      }
    case Reparent(before, p, n) => RehomeKeeps(F, before, p, n);
    case Unlinking(context, n) =>
      KnownChunk(F, n);
      UnlinkKeeps(F, context, n);
    case Freeing(n) =>
      KnownChunk(F, n);
      if F.refs[n] == [] {
        FreeKeeps(F, n);
      } else {
        UnlinkKeeps(F, None, n);
      }
  }

  /** A run ends where a caller does not owe an operation that comes up. */
  ghost function Run<N>(F: Forest<N>, ops: seq<Op<N>>): Outcome<N>
    decreases |ops|
  {
    if ops == [] || !Quiet(F) || !Allowed(F, ops[0]) then Done(F, true, [])
    else
      var r := Do(F, ops[0]);
      var s := Run(r.after, ops[1..]);
      Done(s.after, s.ok, r.lost + s.lost)
  }

  ghost function Nothing<N>(): Forest<N> {
    Forest(map[], map[], map[], map[], map[], map[], [])
  }

  /**
   Every run keeps the hierarchy well formed, whatever becomes of it.  It keeps it free of cycles as long
   as no chunk is given to an owner below that chunk.
   */
  lemma {:induction false} RunKeeps<N>(F: Forest<N>, ops: seq<Op<N>>)
    requires Quiet(F)
    ensures Quiet(Run(F, ops).after)
    ensures Grounded(F.up) && Run(F, ops).lost == [] ==> Grounded(Run(F, ops).after.up)
    decreases |ops|
  {
    if ops != [] && Allowed(F, ops[0]) {
      DoKeeps(F, ops[0]);
      RunKeeps(Do(F, ops[0]).after, ops[1..]);
    }
  }

  lemma NothingIsQuiet<N>()
    ensures Quiet(Nothing<N>())
  {
  }

  // ----- A refusing child -----

  /**
   The only child of a freed chunk, whose destructor refuses, goes to the parent of that chunk only
   if the chunk was the first of its siblings; otherwise it ends without parent.  The comment at
   talloc.c:1657-1661 promises the parent in both cases.
   */
  lemma AbandonedToParentOnlyByFirst<N>(F: Forest<N>, n: N, c: N)
    requires CanFree(F, n) && F.refs[n] == [] && F.destructor[n] != Refuses && n in F.kids && F.kids[n] == [c]
    requires F.up[n].Some? && F.up[n].value in F.kids && n in F.kids[F.up[n].value]
    requires ProperChunk(F, c) && c in F.refs && F.refs[c] == [] && c in F.destructor && F.destructor[c] == Refuses
    ensures Free(F, n).ok && c in Free(F, n).after.up
    ensures Free(F, n).after.up[c] == if F.kids[F.up[n].value][0] == n then F.up[n] else None
  {
    var B := Begin(Ran(F, n), n);
    BeginSettles(F, n);
    BegunFields(F, n);
    BegunKids(F, n, c);
    RefusingKidGoes(B, n, c);
    assert Free(F, n).after == Release(FreeKids(B, n).after, n);
  }

  lemma RefusingKidGoes<N>(B: Forest<N>, n: N, c: N)
    requires CanFreeKids(B, n) && B.kids[n] == [c]
    requires ProperChunk(B, c) && c in B.refs && B.refs[c] == [] && c in B.destructor && B.destructor[c] == Refuses
    ensures c in FreeKids(B, n).after.up && FreeKids(B, n).after.up[c] == B.loop[n] && c != n
  {
    KidIsFreeable(B, n);
    var A := Ran(B, c);
    assert Free(B, c) == Done(A, false, []);
    HeirFits(B, n, A);
    var p := B.loop[n];
    AboveItself(A.up, c);
    assert BeingFreed(B, n);
    if p.Some? {
      KeptParentFits(A, n, c);
    }
    LastKidLeaves(A, n, c, p);
    assert FreeKids(B, n).after == FreeKids(Steal(A, c, p), n).after == Steal(A, c, p) by {
      KidSettled(B, n, A, false);
      AbandonSettles(B, n, A, c, p);
    }
  }

  lemma BegunKids<N>(F: Forest<N>, n: N, c: N)
    requires CanFree(F, n) && n in F.kids && F.kids[n] == [c] && ListsAgree(Ran(F, n).up, Ran(F, n).kids)
    ensures n in Begin(Ran(F, n), n).kids && Begin(Ran(F, n), n).kids[n] == [c]
  {
    assert F.up[n].Some? ==> Listed(F.up, F.kids, n);
    FreeableIsNotCyclic(F, n);
    AboveItself(F.up, n);
  }

  lemma LastKidLeaves<N>(A: Forest<N>, n: N, c: N, p: Option<N>)
    requires WellFormed(A) && n in A.kids && A.kids[n] == [c] && c in A.up && A.up[c] == Some(n)
    requires c !in A.loop && p != Some(n) && p != Some(c) && (p.Some? ==> p.value in A.up)
    ensures n in Steal(A, c, p).kids && Steal(A, c, p).kids[n] == [] && c in Steal(A, c, p).up
    ensures Steal(A, c, p).up[c] == p
  {
    ListsAgreeDetach(A, c);
    assert Without([c], c) == [];
  }
}
