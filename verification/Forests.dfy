/**
 The hierarchy that talloc/talloc.c keeps, as a value: who is whose parent, in which order the
 children and the references of a chunk are listed, and which chunks are being freed.
 */
module Forests {
  import opened Collections
  import opened Wrappers

  /** What the user's destructor of a chunk answers; it does not touch the hierarchy. */
  datatype Destructor = NoDestructor | Succeeds | Refuses

  /**
   `up` maps every live chunk to its parent.  `target` is the referenced chunk of a reference
   handle.  `loop` holds the chunks that are being freed (TALLOC_FLAG_LOOP), with the parent
   pointer that such a chunk keeps although it has left its parent.  `ran` lists the destructors
   that were called.
   */
  datatype Forest<N> = Forest(
    up: map<N, Option<N>>,
    kids: map<N, seq<N>>,
    refs: map<N, seq<N>>,
    target: map<N, Option<N>>,
    destructor: map<N, Destructor>,
    loop: map<N, Option<N>>,
    ran: seq<N>)

  // ----- Ancestors -----

  /** The k-th ancestor of `n`. */
  ghost function Up<N>(up: map<N, Option<N>>, n: N, k: nat): Option<N> {
    if k == 0 then Some(n)
    else if n in up && up[n].Some? then Up(up, up[n].value, k - 1)
    else None
  }

  /** `a` is `n` or one of its ancestors. */
  ghost predicate Above<N>(up: map<N, Option<N>>, a: N, n: N) {
    exists k: nat :: Up(up, n, k) == Some(a)
  }

  /** talloc_is_parent gives up at this depth. */
  const MAX_DEPTH: nat := 10000

  /** `a` is found above `n` before that depth. */
  ghost predicate Seen<N>(up: map<N, Option<N>>, a: N, n: N) {
    exists k: nat :: k < MAX_DEPTH && Up(up, n, k) == Some(a)
  }

  /** `n` is below itself. */
  ghost predicate Cyclic<N>(up: map<N, Option<N>>, n: N) {
    n in up && up[n].Some? && Above(up, n, up[n].value)
  }

  /** The walk up from `n` ends. */
  ghost predicate Ends<N>(up: map<N, Option<N>>, n: N) {
    exists k: nat :: Up(up, n, k) == None
  }

  /** There is no cycle. */
  ghost predicate Grounded<N>(up: map<N, Option<N>>) {
    forall n {:trigger Ends(up, n)} :: n in up ==> Ends(up, n)
  }

  ghost predicate ParentsLive<N>(up: map<N, Option<N>>) {
    forall n {:trigger ParentLives(up, n)} :: n in up ==> ParentLives(up, n)
  }

  ghost predicate ParentLives<N>(up: map<N, Option<N>>, n: N)
    requires n in up
  {
    up[n].None? || up[n].value in up
  }

  lemma {:induction false} UpAdd<N>(up: map<N, Option<N>>, n: N, j: nat, k: nat)
    ensures Up(up, n, j + k) == match Up(up, n, j) case None => None case Some(m) => Up(up, m, k)
    decreases j
  {
    if j > 0 && n in up && up[n].Some? {
      UpAdd(up, up[n].value, j - 1, k);
    }
  }

  lemma AboveItself<N>(up: map<N, Option<N>>, n: N)
    ensures Above(up, n, n)
  {
    assert Up(up, n, 0) == Some(n);
  }

  lemma AboveStep<N>(up: map<N, Option<N>>, a: N, n: N)
    requires n in up && up[n].Some?
    ensures Above(up, a, n) <==> a == n || Above(up, a, up[n].value)
  {
    AboveItself(up, n);
    if k: nat :| Up(up, n, k) == Some(a) {
      if k > 0 {
        assert Up(up, up[n].value, k - 1) == Some(a);
      }
    }
    if k: nat :| Up(up, up[n].value, k) == Some(a) {
      assert Up(up, n, k + 1) == Some(a);
    }
  }

  lemma AboveRoot<N>(up: map<N, Option<N>>, a: N, n: N)
    requires n in up && up[n].None?
    ensures Above(up, a, n) <==> a == n
  {
    AboveItself(up, n);
  }

  lemma AboveTrans<N>(up: map<N, Option<N>>, a: N, b: N, c: N)
    requires Above(up, a, b) && Above(up, b, c)
    ensures Above(up, a, c)
  {
    var j: nat :| Up(up, b, j) == Some(a);
    var k: nat :| Up(up, c, k) == Some(b);
    UpAdd(up, c, k, j);
  }

  lemma {:induction false} AboveLive<N>(up: map<N, Option<N>>, a: N, n: N, k: nat)
    requires ParentsLive(up) && n in up && Up(up, n, k) == Some(a)
    ensures a in up
    decreases k
  {
    if k > 0 {
      assert ParentLives(up, n);
      AboveLive(up, a, up[n].value, k - 1);
    }
  }

  // ----- How long a walk can be -----

  /** The first k ancestors. */
  ghost function Line<N>(up: map<N, Option<N>>, n: N, k: nat): set<N> {
    if k == 0 then {}
    else Line(up, n, k - 1) + (if Up(up, n, k - 1).Some? then {Up(up, n, k - 1).value} else {})
  }

  lemma {:induction false} FromLine<N>(up: map<N, Option<N>>, n: N, k: nat, x: N) returns (j: nat)
    requires x in Line(up, n, k)
    ensures j < k && Up(up, n, j) == Some(x)
    decreases k
  {
    if x in Line(up, n, k - 1) {
      j := FromLine(up, n, k - 1, x);
    } else {
      j := k - 1;
    }
  }

  /** The first time that `a` comes up, all before it are different. */
  lemma {:induction false} LineGrows<N>(up: map<N, Option<N>>, a: N, n: N, first: nat, k: nat)
    requires ParentsLive(up) && n in up && k <= first && Up(up, n, first) == Some(a)
    requires forall j: nat :: j < first ==> Up(up, n, j) != Some(a)
    ensures |Line(up, n, k)| == k && Line(up, n, k) <= up.Keys
    decreases k
  {
    if k > 0 {
      LineGrows(up, a, n, first, k - 1);
      UpAdd(up, n, k - 1, first - (k - 1));
      var x := Up(up, n, k - 1).value;
      AboveLive(up, x, n, k - 1);
      if x in Line(up, n, k - 1) {
        var j := FromLine(up, n, k - 1, x);
        UpAdd(up, n, j, first - (k - 1));
        assert false;
      }
    }
  }

  lemma {:induction false} FirstTime<N>(up: map<N, Option<N>>, a: N, n: N, k: nat) returns (first: nat)
    requires Up(up, n, k) == Some(a)
    ensures Up(up, n, first) == Some(a) && forall j: nat :: j < first ==> Up(up, n, j) != Some(a)
    decreases k
  {
    if j: nat :| j < k && Up(up, n, j) == Some(a) {
      first := FirstTime(up, a, n, j);
    } else {
      first := k;
    }
  }

  /** In a hierarchy of no more than MAX_DEPTH chunks every ancestor is found. */
  lemma AboveIsSeen<N>(up: map<N, Option<N>>, a: N, n: N)
    requires ParentsLive(up) && n in up && Above(up, a, n) && |up| <= MAX_DEPTH
    ensures Seen(up, a, n)
  {
    var k: nat :| Up(up, n, k) == Some(a);
    var first := FirstTime(up, a, n, k);
    LineGrows(up, a, n, first, first);
    AboveLive(up, a, n, first);
    if a in Line(up, n, first) {
      var j := FromLine(up, n, first, a);
      assert false;
    }
    Smaller(Line(up, n, first), up.Keys, a);
    assert |up| == |up.Keys|;
  }

  /** Once ended, a walk stays ended. */
  lemma EndsLater<N>(up: map<N, Option<N>>, n: N, j: nat, k: nat)
    requires Up(up, n, j) == None && j <= k
    ensures Up(up, n, k) == None
  {
    UpAdd(up, n, j, k - j);
  }

  /** A chunk that is strictly above itself has an endless walk. */
  lemma {:induction false} CycleNeverEnds<N>(up: map<N, Option<N>>, n: N, period: nat, k: nat)
    requires period > 0 && Up(up, n, period) == Some(n)
    ensures Up(up, n, k).Some?
    decreases k
  {
    if k > period {
      UpAdd(up, n, period, k - period);
      CycleNeverEnds(up, n, period, k - period);
    } else if Up(up, n, k) == None {
      EndsLater(up, n, k, period);
      assert false;
    }
  }

  lemma NoCycle<N>(up: map<N, Option<N>>, n: N)
    requires Grounded(up) && n in up
    ensures !Cyclic(up, n)
  {
    if up[n].None? {
      return;
    }
    if k: nat :| Up(up, up[n].value, k) == Some(n) {
      assert Up(up, n, k + 1) == Some(n);
      assert Ends(up, n);
      var e: nat :| Up(up, n, e) == None;
      CycleNeverEnds(up, n, k + 1, e);
    }
  }

  // ----- Moving one chunk -----

  /** Nothing changes above a chunk that is not below the moved one. */
  lemma {:induction false} UpElsewhere<N>(up: map<N, Option<N>>, c: N, p: Option<N>, n: N, k: nat)
    requires !Above(up, c, n)
    ensures Up(up[c := p], n, k) == Up(up, n, k)
    decreases k
  {
    AboveItself(up, n);
    if k > 0 && n in up && up[n].Some? {
      AboveStep(up, c, n);
      UpElsewhere(up, c, p, up[n].value, k - 1);
    }
  }

  lemma AboveElsewhere<N>(up: map<N, Option<N>>, c: N, p: Option<N>, a: N, n: N)
    requires !Above(up, c, n)
    ensures Above(up[c := p], a, n) <==> Above(up, a, n)
  {
    if k: nat :| Up(up, n, k) == Some(a) {
      UpElsewhere(up, c, p, n, k);
    }
    var after := up[c := p];
    if k: nat :| Up(after, n, k) == Some(a) {
      UpElsewhere(up, c, p, n, k);
    }
  }

  /** A chunk below the moved one stays below it. */
  lemma {:induction false} StillBelow<N>(up: map<N, Option<N>>, c: N, p: Option<N>, n: N, k: nat)
    requires Up(up, n, k) == Some(c)
    ensures Above(up[c := p], c, n)
    decreases k
  {
    AboveItself(up[c := p], n);
    if n != c {
      assert k > 0;
      StillBelow(up, c, p, up[n].value, k - 1);
      AboveStep(up[c := p], c, n);
    }
  }

  lemma SameBelow<N>(up: map<N, Option<N>>, c: N, p: Option<N>, n: N)
    requires c in up
    ensures Above(up[c := p], c, n) <==> Above(up, c, n)
  {
    if k: nat :| Up(up, n, k) == Some(c) {
      StillBelow(up, c, p, n, k);
    }
    var after := up[c := p];
    if k: nat :| Up(after, n, k) == Some(c) {
      StillBelow(after, c, up[c], n, k);
      assert after[c := up[c]] == up;
    }
  }

  /**
   Moving `c` below `p` keeps the hierarchy free of cycles exactly when `p` is not `c` or below it
   (the note on loops in talloc.h:356-358).
   */
  lemma MoveKeepsGroundedIff<N>(up: map<N, Option<N>>, c: N, p: N)
    requires ParentsLive(up) && Grounded(up) && c in up && p in up
    ensures Grounded(up[c := Some(p)]) <==> !Above(up, c, p)
  {
    var after := up[c := Some(p)];
    if Above(up, c, p) {
      SameBelow(up, c, Some(p), p);
      if Grounded(after) {
        NoCycle(after, c);
      }
    } else {
      forall n | n in after
        ensures Ends(after, n)
      {
        MovedEnds(up, c, Some(p), n);
      }
    }
  }

  lemma CutKeepsGrounded<N>(up: map<N, Option<N>>, c: N)
    requires Grounded(up) && c in up
    ensures Grounded(up[c := None])
  {
    var after := up[c := None];
    forall n | n in after
      ensures Ends(after, n)
    {
      MovedEnds(up, c, None, n);
    }
  }

  lemma {:induction false} MovedEnds<N>(up: map<N, Option<N>>, c: N, p: Option<N>, n: N)
    requires Grounded(up) && c in up && n in up
    requires p.Some? ==> p.value in up && !Above(up, c, p.value)
    ensures Ends(up[c := p], n)
  {
    var after := up[c := p];
    if !Above(up, c, n) {
      assert Ends(up, n);
      var e: nat :| Up(up, n, e) == None;
      UpElsewhere(up, c, p, n, e);
    } else {
      SameBelow(up, c, p, n);
      var j: nat :| Up(after, n, j) == Some(c);
      if p.None? {
        assert Up(after, c, 1) == None;
        UpAdd(after, n, j, 1);
      } else {
        assert Ends(up, p.value);
        var e: nat :| Up(up, p.value, e) == None;
        UpElsewhere(up, c, p, p.value, e);
        assert Up(after, c, e + 1) == None;
        UpAdd(after, n, j, e + 1);
      }
    }
  }

  // ----- Sibling lists -----

  ghost predicate NoDuplicates<N>(s: seq<N>) {
    forall i, j :: 0 <= i < j < |s| ==> s[i] != s[j]
  }

  ghost function Without<N>(s: seq<N>, x: N): seq<N> {
    if s == [] then [] else if s[0] == x then s[1..] else [s[0]] + Without(s[1..], x)
  }

  lemma {:induction false} WithoutAt<N>(s: seq<N>, i: nat)
    requires NoDuplicates(s) && i < |s|
    ensures Without(s, s[i]) == s[..i] + s[i + 1..]
    decreases i
  {
    if i > 0 {
      assert s[0] != s[i];
      WithoutAt(s[1..], i - 1);
      assert s[1..][..i - 1] == s[1..i] && s[1..][i..] == s[i + 1..];
    }
  }

  lemma WithoutMembers<N>(s: seq<N>, x: N)
    requires NoDuplicates(s) && x in s
    ensures NoDuplicates(Without(s, x)) && |Without(s, x)| + 1 == |s|
    ensures forall y :: y in Without(s, x) <==> y in s && y != x
  {
    var i :| 0 <= i < |s| && s[i] == x;
    WithoutAt(s, i);
    var r := s[..i] + s[i + 1..];
    forall y | y in s && y != x
      ensures y in r
    {
      var j :| 0 <= j < |s| && s[j] == y;
      assert r[if j < i then j else j - 1] == y;
    }
  }

  lemma WithoutMember<N>(s: seq<N>, x: N, y: N)
    requires NoDuplicates(s) && x in s
    ensures y in Without(s, x) <==> y in s && y != x
  {
    WithoutMembers(s, x);
  }

  // ----- Well-formed hierarchies -----

  ghost predicate ListsAgree<N>(parent: map<N, Option<N>>, lists: map<N, seq<N>>) {
    && lists.Keys == parent.Keys
    && (forall p {:trigger NoDuplicates(lists[p])} :: p in lists ==> NoDuplicates(lists[p]))
    && (forall p, c {:trigger c in lists[p]} :: p in lists && c in lists[p] ==> c in parent && parent[c] == Some(p))
    && (forall c {:trigger Listed(parent, lists, c)} :: c in parent ==> Listed(parent, lists, c))
  }

  /** A chunk with a parent is in the list of that parent. */
  ghost predicate Listed<N>(parent: map<N, Option<N>>, lists: map<N, seq<N>>, c: N)
    requires c in parent
  {
    parent[c].None? || (parent[c].value in lists && c in lists[parent[c].value])
  }

  /** A reference handle is a leaf that nobody references and that is not being freed. */
  ghost predicate HandlesAreLeaves<N>(F: Forest<N>) {
    && F.refs.Keys == F.kids.Keys == F.destructor.Keys == F.target.Keys
    && forall h {:trigger HandleIsLeaf(F, h)} :: h in F.target && F.target[h].Some? ==> HandleIsLeaf(F, h)
  }

  ghost predicate HandleIsLeaf<N>(F: Forest<N>, h: N) {
    && h in F.kids && F.kids[h] == [] && h in F.refs && F.refs[h] == []
    && h in F.destructor && F.destructor[h] == NoDestructor && h !in F.loop
  }

  /** No ancestor of `n` is being freed. */
  ghost predicate Outside<N>(up: map<N, Option<N>>, loop: map<N, Option<N>>, n: N) {
    forall r :: r in loop ==> !Above(up, r, n)
  }

  ghost predicate ProperChunk<N>(F: Forest<N>, n: N) {
    n in F.up && n in F.target && F.target[n].None?
  }

  /** What is known of chunks that are being freed. */
  ghost predicate LoopAgrees<N>(F: Forest<N>) {
    forall n {:trigger BeingFreed(F, n)} :: n in F.loop ==> BeingFreed(F, n)
  }

  ghost predicate BeingFreed<N>(F: Forest<N>, n: N)
    requires n in F.loop
  {
    && ProperChunk(F, n) && F.up[n].None? && n in F.refs && F.refs[n] == []
    && (F.loop[n].Some? ==> KeptParent(F, n, F.loop[n].value))
  }

  ghost predicate KeptParent<N>(F: Forest<N>, n: N, g: N) {
    g != n && ProperChunk(F, g) && (g in F.loop || Outside(F.up, F.loop, g))
  }

  /** The parents as talloc_parent_chunk finds them, kept ones included. */
  ghost function Parents<N>(up: map<N, Option<N>>, loop: map<N, Option<N>>): map<N, Option<N>> {
    map n | n in up :: if n in loop then loop[n] else up[n]
  }

  /** The lists and the parent pointers agree; cycles are possible. */
  ghost predicate WellFormed<N>(F: Forest<N>) {
    && ListsAgree(F.up, F.kids)
    && ListsAgree(F.target, F.refs)
    && HandlesAreLeaves(F)
    && LoopAgrees(F)
  }

  lemma ListsAgreeParents<N>(parent: map<N, Option<N>>, lists: map<N, seq<N>>)
    requires ListsAgree(parent, lists)
    ensures ParentsLive(parent)
  {
    forall n | n in parent
      ensures ParentLives(parent, n)
    {
      assert Listed(parent, lists, n);
    }
  }

  // ----- Lists under their four operations -----

  lemma ListsCut<N>(parent: map<N, Option<N>>, lists: map<N, seq<N>>, c: N)
    requires ListsAgree(parent, lists) && c in parent && parent[c].Some?
    ensures parent[c].value in lists && c in lists[parent[c].value] && NoDuplicates(lists[parent[c].value])
    ensures ListsAgree(parent[c := None], lists[parent[c].value := Without(lists[parent[c].value], c)])
  {
    var p := parent[c].value;
    assert Listed(parent, lists, c);
    var less := Without(lists[p], c);
    assert NoDuplicates(lists[p]);
    WithoutMembers(lists[p], c);
    var after := lists[p := less];
    forall q, m | q in after && m in after[q]
      ensures m in lists[q] && m != c
    {
      if q == p {
        WithoutMember(lists[p], c, m);
      } else {
        assert after[q] == lists[q] && parent[m] == Some(q);
      }
    }
    forall q | q in after
      ensures NoDuplicates(after[q])
    {
      assert NoDuplicates(lists[q]);
    }
    var orphaned := parent[c := None];
    forall m | m in orphaned
      ensures Listed(orphaned, after, m)
    {
      assert Listed(parent, lists, m);
      if m != c && parent[m] == Some(p) {
        WithoutMember(lists[p], c, m);
      }
    }
  }

  lemma ListsHook<N>(parent: map<N, Option<N>>, lists: map<N, seq<N>>, c: N, p: N)
    requires ListsAgree(parent, lists) && c in parent && parent[c].None? && p in parent
    ensures ListsAgree(parent[c := Some(p)], lists[p := [c] + lists[p]])
  {
    assert c !in lists[p];
    var after := lists[p := [c] + lists[p]];
    forall q | q in after
      ensures NoDuplicates(after[q])
    {
      assert NoDuplicates(lists[q]);
    }
    var hooked := parent[c := Some(p)];
    forall m | m in hooked
      ensures Listed(hooked, after, m)
    {
      assert Listed(parent, lists, m);
    }
  }

  lemma ListsNew<N>(parent: map<N, Option<N>>, lists: map<N, seq<N>>, c: N)
    requires ListsAgree(parent, lists) && c !in parent
    ensures ListsAgree(parent[c := None], lists[c := []])
  {
    var rootless, after := parent[c := None], lists[c := []];
    forall q | q in after
      ensures NoDuplicates(after[q])
    {
      assert q != c ==> NoDuplicates(lists[q]);
    }
    forall m | m in rootless
      ensures Listed(rootless, after, m)
    {
      assert m != c ==> Listed(parent, lists, m);
    }
  }

  lemma ListsDrop<N>(parent: map<N, Option<N>>, lists: map<N, seq<N>>, c: N)
    requires ListsAgree(parent, lists) && c in parent && parent[c].None? && lists[c] == []
    ensures ListsAgree(parent - {c}, lists - {c})
  {
    forall q | q in lists - {c}
      ensures NoDuplicates((lists - {c})[q])
    {
      assert NoDuplicates(lists[q]);
    }
    forall m | m in parent - {c}
      ensures Listed(parent - {c}, lists - {c}, m)
    {
      assert Listed(parent, lists, m);
    }
  }
}
