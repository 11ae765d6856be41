/**
 How a chunk is lost below itself: six operations and a talloc_free that gives a child to an owner
 below that child (talloc/talloc.c:1110-1224, 1653-1684).
 */
module ForestLoss {
  import opened Wrappers
  import opened Forests
  import opened ForestSteps
  import opened ForestFree
  import opened ForestCycles
  import opened ForestHolders
  import opened ForestRuns

  /**
   Chunk 1, a child of chunk 0, is referenced by handle 3 from below itself and by handle 4 of
   chunk 5; no destructor refuses, and nothing is being freed.
   */
  ghost function Entangled(): Forest<nat> {
    Forest(
      map[0 := None, 1 := Some(0), 2 := Some(1), 3 := Some(2), 4 := Some(5), 5 := None],
      map[0 := [1], 1 := [2], 2 := [3], 3 := [], 4 := [], 5 := [4]],
      map[0 := [], 1 := [3, 4], 2 := [], 3 := [], 4 := [], 5 := []],
      map[0 := None, 1 := None, 2 := None, 3 := Some(1), 4 := Some(1), 5 := None],
      map[0 := NoDestructor, 1 := NoDestructor, 2 := NoDestructor,
          3 := NoDestructor, 4 := NoDestructor, 5 := NoDestructor],
      map[], [])
  }

  lemma EntangledEnds(n: nat)
    requires n in Entangled().up
    ensures Ends(Entangled().up, n)
  {
    var up := Entangled().up;
    assert Up(up, 0, 1) == None;
    UpAdd(up, 1, 1, 1);
    assert Up(up, 1, 2) == None;
    UpAdd(up, 2, 1, 2);
    assert Up(up, 2, 3) == None;
    UpAdd(up, 3, 1, 3);
    assert Up(up, 3, 4) == None;
    assert Up(up, 5, 1) == None;
    UpAdd(up, 4, 1, 1);
    assert Up(up, 4, 2) == None;
  }

  lemma EntangledKids()
    ensures ListsAgree(Entangled().up, Entangled().kids)
  {
    var up, kids := Entangled().up, Entangled().kids;
    assert up.Keys == {0, 1, 2, 3, 4, 5} == kids.Keys;
    forall c | c in up
      ensures Listed(up, kids, c) && NoDuplicates(kids[c])
    {
      assert |kids[c]| <= 1 && (up[c].Some? ==> kids[up[c].value] == [c]);
    }
    forall p, c | p in kids && c in kids[p]
      ensures c in up && up[c] == Some(p)
    {
      assert kids[p] == [c];
    }
  }

  lemma EntangledRefs()
    ensures ListsAgree(Entangled().target, Entangled().refs)
  {
    var target, refs := Entangled().target, Entangled().refs;
    assert target.Keys == {0, 1, 2, 3, 4, 5} == refs.Keys;
    forall c | c in target
      ensures Listed(target, refs, c) && NoDuplicates(refs[c])
    {
      assert c == 1 ==> refs[c] == [3, 4];
    }
    forall p, c | p in refs && c in refs[p]
      ensures c in target && target[c] == Some(p)
    {
      assert p == 1 && refs[p] == [3, 4];
    }
  }

  lemma EntangledIsQuiet()
    ensures Quiet(Entangled()) && Grounded(Entangled().up)
  {
    hide ListsAgree, Ends, Entangled;
    EntangledKids();
    EntangledRefs();
    EntangledHandles();
    forall n | n in Entangled().up
      ensures Ends(Entangled().up, n)
    {
      EntangledEnds(n);
    }
  }

  lemma EntangledHandles()
    ensures HandlesAreLeaves(Entangled()) && Entangled().loop == map[]
  {
    var E := Entangled();
    assert E.refs.Keys == E.kids.Keys == E.destructor.Keys == E.target.Keys == {0, 1, 2, 3, 4, 5};
    forall h | h in E.target && E.target[h].Some?
      ensures HandleIsLeaf(E, h)
    {
    }
  }

  lemma EntangledFacts(E: Forest<nat>)
    requires E == Entangled()
    ensures 0 in E.up && 0 in E.kids && E.kids[0] == [1] && E.up[0].None? && 0 in E.refs && E.refs[0] == []
    ensures 0 in E.destructor && E.destructor[0] == NoDestructor && ProperChunk(E, 0) && ProperChunk(E, 1)
    ensures 1 in E.refs && E.refs[1] == [3, 4] && 3 in E.up && E.up[3] == Some(2)
    ensures Above(E.up, 1, 2) && !Above(E.up, 1, 4)
  {
    var up := E.up;
    assert Up(up, 2, 1) == Some(1);
    AboveStep(up, 1, 4);
    AboveRoot(up, 1, 5);
  }

  /** The state in which the child of 0 is freed. */
  lemma EntangledBegins(E: Forest<nat>, B: Forest<nat>)
    requires E == Entangled() && Quiet(E) && CanFree(E, 0) && B == E.(loop := map[0 := None])
    ensures B == Begin(Ran(E, 0), 0) && CanFreeKids(B, 0)
  {
    EntangledFacts(E);
    BeginSettles(E, 0);
    assert E.loop[0 := None] == map[0 := None];
  }

  /** Its child goes to its own descendant. */
  lemma EntangledTurn(B: Forest<nat>)
    requires CanFreeKids(B, 0) && B.kids[0] == [1] && ProperChunk(B, 1) && 1 in B.refs && B.refs[1] == [3, 4]
    requires 3 in B.up && B.up[3] == Some(2) && Above(B.up, 1, 2) && !Above(B.up, 1, 4)
    ensures 1 in FreeKids(B, 0).lost
  {
    assert 4 in B.refs[1];
    if k: nat :| k < MAX_DEPTH && Up(B.up, 4, k) == Some(1) {
      assert Above(B.up, 1, 4);
    }
    KidIsFreeable(B, 0);
    TurnUnfolds(B, 0, 1);
  }

  /**
   Freeing chunk 0 loses its child: chunk 1 is stripped of handle 3, because it is held from below, then
   of handle 4, and its free fails; its heir is chunk 2, the holder of handle 3, which is below it.
   There was no cycle before, and chunk 1 is on one afterwards.
   */
  lemma LostBelowItself()
    ensures Quiet(Entangled()) && Grounded(Entangled().up) && Allowed(Entangled(), Freeing(0))
    ensures Do(Entangled(), Freeing(0)).ok && Cyclic(Do(Entangled(), Freeing(0)).after.up, 1)
  {
    hide Entangled, Quiet, Free, Cyclic, Do, Allowed, Grounded, WellFormed, Freeable;
    var E := Entangled();
    EntangledIsQuiet();
    EntangledFacts(E);
    RootCanBeFreed(E, 0);
    EntangledFree(E, E.(loop := map[0 := None]));
    FreedByUser(E, 0);
    FreeKeepsIff(E, 0);
  }

  lemma RootCanBeFreed(F: Forest<nat>, n: nat)
    requires Quiet(F) && ProperChunk(F, n) && F.up[n].None?
    ensures CanFree(F, n) && WellFormed(F) && !Cyclic(F.up, n)
  {
  }

  lemma FreedByUser(F: Forest<nat>, n: nat)
    requires Quiet(F) && ProperChunk(F, n) && CanFree(F, n) && F.refs[n] == [] && !Cyclic(F.up, n)
    ensures Allowed(F, Freeing(n)) && Do(F, Freeing(n)) == Free(F, n)
  {
    KnownChunk(F, n);
  }

  lemma EntangledFree(E: Forest<nat>, B: Forest<nat>)
    requires E == Entangled() && Quiet(E) && CanFree(E, 0) && B == E.(loop := map[0 := None])
    ensures Free(E, 0).ok && 1 in Free(E, 0).lost
  {
    hide Entangled, Quiet, Settled, Freed, KidsFreed, Above;
    EntangledFacts(E);
    EntangledBegins(E, B);
    EntangledTurn(B);
    assert Free(E, 0).lost == FreeKids(B, 0).lost;
  }

  /** The operations after which the chunks are entangled. */
  function Entangling(): seq<Op<nat>> {
    [Allocate(0, None, NoDestructor), Allocate(1, Some(0), NoDestructor), Allocate(2, Some(1), NoDestructor),
     Allocate(5, None, NoDestructor), Reference(4, Some(5), 1), Reference(3, Some(2), 1)]
  }

  ghost function Chunks(): Forest<nat> {
    Forest(
      map[0 := None, 1 := Some(0), 2 := Some(1), 5 := None],
      map[0 := [1], 1 := [2], 2 := [], 5 := []],
      map[0 := [], 1 := [], 2 := [], 5 := []],
      map[0 := None, 1 := None, 2 := None, 5 := None],
      map[0 := NoDestructor, 1 := NoDestructor, 2 := NoDestructor, 5 := NoDestructor],
      map[], [])
  }

  ghost function OneReference(): Forest<nat> {
    Forest(
      map[0 := None, 1 := Some(0), 2 := Some(1), 4 := Some(5), 5 := None],
      map[0 := [1], 1 := [2], 2 := [], 4 := [], 5 := [4]],
      map[0 := [], 1 := [4], 2 := [], 4 := [], 5 := []],
      map[0 := None, 1 := None, 2 := None, 4 := Some(1), 5 := None],
      map[0 := NoDestructor, 1 := NoDestructor, 2 := NoDestructor, 4 := NoDestructor, 5 := NoDestructor],
      map[], [])
  }

  lemma RunStep<N>(F: Forest<N>, op: Op<N>, G: Forest<N>, ops: seq<Op<N>>)
    requires Quiet(F) && Allowed(F, op) && Do(F, op) == Done(G, true, [])
    ensures Quiet(G) && Run(F, [op] + ops) == Run(G, ops)
  {
    DoKeeps(F, op);
    assert [] + Run(G, ops).lost == Run(G, ops).lost;
    assert ([op] + ops)[0] == op && ([op] + ops)[1..] == ops;
  }

  /** What a new child of `p` changes. */
  lemma AllocFields<N>(F: Forest<N>, n: N, p: N)
    requires Quiet(F) && n !in F.up && ProperChunk(F, p)
    ensures Do(F, Allocate(n, Some(p), NoDestructor)) == Done(Forest(
        F.up[n := Some(p)], F.kids[n := []][p := [n] + F.kids[p]], F.refs[n := []], F.target[n := None],
        F.destructor[n := NoDestructor], F.loop, F.ran), true, [])
  {
    assert F.up[n := None][n := Some(p)] == F.up[n := Some(p)];
  }

  lemma ReferFields<N>(F: Forest<N>, h: N, p: N, t: N)
    requires Quiet(F) && h !in F.up && ProperChunk(F, p) && ProperChunk(F, t)
    ensures Do(F, Reference(h, Some(p), t)) == Done(Forest(
        F.up[h := Some(p)], F.kids[h := []][p := [h] + F.kids[p]], F.refs[h := []][t := [h] + F.refs[t]],
        F.target[h := Some(t)], F.destructor[h := NoDestructor], F.loop, F.ran), true, [])
  {
    AllocKeeps(F, h, Some(p), NoDestructor);
    AllocFields(F, h, p);
    assert F.target[h := None][h := Some(t)] == F.target[h := Some(t)];
  }

  lemma RefersOnce(F: Forest<nat>, G: Forest<nat>)
    requires F == Chunks() && G == OneReference() && Quiet(F)
    ensures Allowed(F, Reference(4, Some(5), 1)) && Do(F, Reference(4, Some(5), 1)) == Done(G, true, [])
  {
    hide Quiet, Do;
    ReferFields(F, 4, 5, 1);
    assert F.up[4 := Some(5)] == G.up;
    assert [4] + F.kids[5] == [4] && [4] + F.refs[1] == [4];
    assert F.kids[4 := []][5 := [4] + F.kids[5]] == G.kids;
    assert F.refs[4 := []][1 := [4] + F.refs[1]] == G.refs;
    assert F.target[4 := Some(1)] == G.target;
    assert F.destructor[4 := NoDestructor] == G.destructor;
  }

  lemma RefersTwice(F: Forest<nat>, G: Forest<nat>)
    requires F == OneReference() && G == Entangled() && Quiet(F)
    ensures Allowed(F, Reference(3, Some(2), 1)) && Do(F, Reference(3, Some(2), 1)) == Done(G, true, [])
  {
    hide Quiet, Do;
    ReferFields(F, 3, 2, 1);
    assert F.up[3 := Some(2)] == G.up;
    assert [3] + F.kids[2] == [3] && [3] + F.refs[1] == [3, 4];
    assert F.kids[3 := []][2 := [3] + F.kids[2]] == G.kids;
    assert F.refs[3 := []][1 := [3] + F.refs[1]] == G.refs;
    assert F.target[3 := Some(1)] == G.target;
    assert F.destructor[3 := NoDestructor] == G.destructor;
  }

  ghost function First(): Forest<nat> {
    Forest(map[0 := None], map[0 := []], map[0 := []], map[0 := None], map[0 := NoDestructor], map[], [])
  }

  ghost function Second(): Forest<nat> {
    Forest(map[0 := None, 1 := Some(0)], map[0 := [1], 1 := []], map[0 := [], 1 := []], map[0 := None, 1 := None],
      map[0 := NoDestructor, 1 := NoDestructor], map[], [])
  }

  ghost function Third(): Forest<nat> {
    Forest(map[0 := None, 1 := Some(0), 2 := Some(1)], map[0 := [1], 1 := [2], 2 := []], map[0 := [], 1 := [], 2 := []],
      map[0 := None, 1 := None, 2 := None], map[0 := NoDestructor, 1 := NoDestructor, 2 := NoDestructor], map[], [])
  }

  lemma AllocatesFirst()
    ensures Quiet(Nothing<nat>()) && Allowed(Nothing<nat>(), Allocate(0, None, NoDestructor))
    ensures Do(Nothing<nat>(), Allocate(0, None, NoDestructor)) == Done(First(), true, [])
  {
    NothingIsQuiet<nat>();
    var N := Nothing<nat>();
    assert N.up[0 := None] == First().up && N.kids[0 := []] == First().kids && N.refs[0 := []] == First().refs;
    assert N.target[0 := None] == First().target && N.destructor[0 := NoDestructor] == First().destructor;
  }

  lemma AllocatesSecond(F: Forest<nat>, G: Forest<nat>)
    requires F == First() && G == Second() && Quiet(F)
    ensures Allowed(F, Allocate(1, Some(0), NoDestructor))
    ensures Do(F, Allocate(1, Some(0), NoDestructor)) == Done(G, true, [])
  {
    hide Quiet, Do;
    AllocFields(F, 1, 0);
    assert F.up[1 := Some(0)] == G.up;
    assert [1] + F.kids[0] == [1];
    assert F.kids[1 := []][0 := [1] + F.kids[0]] == G.kids;
    assert F.refs[1 := []] == G.refs && F.target[1 := None] == G.target;
    assert F.destructor[1 := NoDestructor] == G.destructor;
  }

  lemma AllocatesThird(F: Forest<nat>, G: Forest<nat>)
    requires F == Second() && G == Third() && Quiet(F)
    ensures Allowed(F, Allocate(2, Some(1), NoDestructor))
    ensures Do(F, Allocate(2, Some(1), NoDestructor)) == Done(G, true, [])
  {
    hide Quiet, Do;
    AllocFields(F, 2, 1);
    assert F.up[2 := Some(1)] == G.up;
    assert [2] + F.kids[1] == [2];
    assert F.kids[2 := []][1 := [2] + F.kids[1]] == G.kids;
    assert F.refs[2 := []] == G.refs && F.target[2 := None] == G.target;
    assert F.destructor[2 := NoDestructor] == G.destructor;
  }

  lemma AllocatesLast(F: Forest<nat>, G: Forest<nat>)
    requires F == Third() && G == Chunks() && Quiet(F)
    ensures Allowed(F, Allocate(5, None, NoDestructor))
    ensures Do(F, Allocate(5, None, NoDestructor)) == Done(G, true, [])
  {
    hide Quiet;
    assert F.up[5 := None] == G.up;
    assert F.kids[5 := []] == G.kids;
    assert F.refs[5 := []] == G.refs && F.target[5 := None] == G.target;
    assert F.destructor[5 := NoDestructor] == G.destructor;
  }

  /** Six allowed operations on nothing lead to it, and a free then loses chunk 1 and what is below it. */
  lemma EntangledIsReached()
    ensures Run(Nothing(), Entangling()) == Done(Entangled(), true, [])
    ensures Quiet(Entangled()) && Grounded(Entangled().up) && Allowed(Entangled(), Freeing(0))
    ensures Do(Entangled(), Freeing(0)).ok && Cyclic(Do(Entangled(), Freeing(0)).after.up, 1)
  {
    hide Quiet, Allowed, Do, Entangled, Chunks, OneReference, First, Second, Third;
    var s := Entangling();
    AllocatesFirst();
    RunStep(Nothing(), s[0], First(), s[1..]);
    AllocatesSecond(First(), Second());
    RunStep(First(), s[1], Second(), s[2..]);
    AllocatesThird(Second(), Third());
    RunStep(Second(), s[2], Third(), s[3..]);
    AllocatesLast(Third(), Chunks());
    RunStep(Third(), s[3], Chunks(), s[4..]);
    RefersOnce(Chunks(), OneReference());
    RunStep(Chunks(), s[4], OneReference(), s[5..]);
    RefersTwice(OneReference(), Entangled());
    RunStep(OneReference(), s[5], Entangled(), []);
    Unrolled(s);
    LostBelowItself();
  }

  lemma Unrolled(s: seq<Op<nat>>)
    requires |s| == 6
    ensures s == [s[0]] + s[1..] && s[1..] == [s[1]] + s[2..] && s[2..] == [s[2]] + s[3..]
    ensures s[3..] == [s[3]] + s[4..] && s[4..] == [s[4]] + s[5..] && s[5..] == [s[5]] + []
  {
  }
}
