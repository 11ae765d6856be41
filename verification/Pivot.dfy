/**
 pivot_root, and whole runs of mount, umount and pivot_root (syscall/enter.c:169-383,
 path/binding.c:635-735).
 */
module Pivot {
  import opened Wrappers
  import opened Paths
  import opened Bindings

  /** Where the previous root becomes reachable, as a path under the new root. */
  function PutOldAfter(newRoot: string, putOld: string): Option<string>
    requires newRoot != ""
  {
    var n := |newRoot|;
    if newRoot <= putOld && (CharAt(putOld, n) == '/' || (n == 1 && newRoot[0] == '/')) then
      var after := if n == 1 then putOld else putOld[n..];
      if CharAt(after, 0) == '/' && CharAt(after, 1) != '\0' then Some(after) else None
    else None
  }

  /** The guest path of `b` lies strictly under the new root. */
  predicate Moves(b: Binding, newRoot: string) {
    |b.guest| > |newRoot| && newRoot <= b.guest && b.guest[|newRoot|] == '/'
  }

  /** The guest path of `b` already sits at or under put_old. */
  predicate SitsUnder(b: Binding, put: string) {
    put <= b.guest && (|b.guest| == |put| || b.guest[|put|] == '/')
  }

  datatype Pivoting = Pivoting(before: Table, newRootHost: string, newRoot: string, put: Option<string>)

  function OldRoot(p: Pivoting): Binding
    requires FirstHit(p.before.guest, Guest, "/").Some?
  {
    FirstHit(p.before.guest, Guest, "/").value
  }

  /** One turn of the loop over the snapshot. */
  function PivotOne(t: Table, b: Binding, rootId: nat, newRoot: string, put: Option<string>): Table {
    if b.id == rootId || b.guest == "/" then t
    else if Moves(b, newRoot) then
      RemoveFromAll(Insort3(t, b.host, b.guest[|newRoot|..]), b.id)
    else if put.None? || SitsUnder(b, put.value) || |put.value + b.guest| >= PATH_MAX then t
    else Insort3(t, b.host, put.value + b.guest)
  }

  function PivotBase(p: Pivoting): Table
    requires FirstHit(p.before.guest, Guest, "/").Some?
  {
    var t := Insort3(RemoveFromAll(p.before, OldRoot(p).id), p.newRootHost, "/");
    if p.put.Some? then Insort3(t, OldRoot(p).host, p.put.value) else t
  }

  function PivotUpTo(p: Pivoting, k: nat): Table
    requires FirstHit(p.before.guest, Guest, "/").Some? && k <= |p.before.guest|
  {
    if k == 0 then PivotBase(p)
    else PivotOne(PivotUpTo(p, k - 1), p.before.guest[k - 1], OldRoot(p).id, p.newRoot, p.put)
  }

  /** emulate_pivot_root once both of its paths are resolved. */
  function PivotRoot(t: Table, newRootHost: string, newRoot: string, putOld: string): Table
    requires newRoot != ""
  {
    if FirstHit(t.guest, Guest, "/").None? then t
    else PivotUpTo(Pivoting(t, newRootHost, newRoot, PutOldAfter(newRoot, putOld)), |t.guest|)
  }

  // ---------------------------------------------------------------------
  // Whole runs
  // ---------------------------------------------------------------------

  lemma PutOldIsAbsolute(newRoot: string, putOld: string)
    requires AbsText(newRoot) && AbsText(putOld)
    ensures PutOldAfter(newRoot, putOld).Some? ==>
      AbsText(PutOldAfter(newRoot, putOld).value) && PutOldAfter(newRoot, putOld).value != "/"
  {
  }

  lemma PivotBaseKeeps(p: Pivoting)
    requires WellFormed(p.before) && AbsText(p.newRootHost)
    requires p.put.Some? ==> AbsText(p.put.value)
    ensures FirstHit(p.before.guest, Guest, "/").Some?
    ensures WellFormed(PivotBase(p)) && PivotBase(p).nextId > p.before.nextId
    ensures OldRoot(p) in p.before.guest && OldRoot(p).guest == "/" && AbsText(OldRoot(p).host)
  {
    RootAlwaysHit(p.before, "/");
    var root := OldRoot(p);
    RemoveKeeps(p.before, root.id);
    var t0 := RemoveFromAll(p.before, root.id);
    Insort3Keeps(t0, p.newRootHost, "/");
    if p.put.Some? { Insort3Keeps(Insort3(t0, p.newRootHost, "/"), root.host, p.put.value); }
  }

  /** The guest bindings of `u` are those of `t` after the insertion of a new binding "h:g". */
  ghost predicate Gains(t: Table, u: Table, g: string, h: string) {
    forall c :: c in u.guest <==> c == Binding(t.nextId, h, g) || (c in t.guest && !SameLocation(c.guest, g))
  }

  /** The guest bindings of `u` are those of `t` but for the address `id`. */
  ghost predicate Loses(t: Table, u: Table, id: nat) {
    forall c :: c in u.guest <==> c in t.guest && c.id != id
  }

  lemma InsertGains(t: Table, host: string, guest: string)
    requires WellFormed(t) && AbsText(host) && AbsText(guest)
    ensures Gains(t, Insort3(t, host, guest), guest, host)
    ensures WellFormed(Insort3(t, host, guest)) && Insort3(t, host, guest).nextId == t.nextId + 1
  {
    Insort3Keeps(t, host, guest);
  }

  lemma RemoveLoses(t: Table, id: nat)
    requires WellFormed(t) && forall c :: c in t.guest && c.id == id ==> c.guest != "/"
    ensures Loses(t, RemoveFromAll(t, id), id) && WellFormed(RemoveFromAll(t, id))
  {
    assert t.guest[|t.guest| - 1] in t.guest;
    RemoveKeeps(t, id);
  }

  // ---------------------------------------------------------------------
  // The loop of pivot_root, when put_old is usable
  // ---------------------------------------------------------------------

  /** A path without a final separator, other than the root. */
  predicate Tidy(path: string) {
    AbsText(path) && (path == "/" || path[|path| - 1] != '/')
  }

  /**
   The caller's conditions: put_old carries no final separator and no binding that moves with the
   pivot lands at or under put_old.
   */
  ghost predicate Usable(p: Pivoting) {
    && WellFormed(p.before) && AbsText(p.newRootHost) && Tidy(p.newRoot)
    && (forall b :: b in p.before.guest ==> Tidy(b.guest))
    && (p.put.Some? ==> Tidy(p.put.value) && p.put.value != "/")
    && (forall b :: b in p.before.guest && Moves(b, p.newRoot) && p.put.Some?
          ==> !Covers(p.put.value, b.guest[|p.newRoot|..]))
  }

  /** The guest path at which the pivot exposes `b`, if it does so anew. */
  function Target(p: Pivoting, b: Binding): Option<string>
    requires FirstHit(p.before.guest, Guest, "/").Some?
  {
    if b.id == OldRoot(p).id || b.guest == "/" then None
    else if Moves(b, p.newRoot) then Some(b.guest[|p.newRoot|..])
    else if p.put.None? || SitsUnder(b, p.put.value) || |p.put.value + b.guest| >= PATH_MAX then None
    else Some(p.put.value + b.guest)
  }

  /** After `k` turns the pivot must expose the host path `h` at `g`. */
  ghost predicate Wanted(p: Pivoting, k: nat, g: string, h: string)
    requires FirstHit(p.before.guest, Guest, "/").Some? && k <= |p.before.guest|
  {
    || (g == "/" && h == p.newRootHost)
    || (p.put == Some(g) && h == OldRoot(p).host)
    || exists j :: 0 <= j < k && Target(p, p.before.guest[j]) == Some(g) && p.before.guest[j].host == h
  }

  ghost predicate Stays(p: Pivoting, b: Binding)
    requires FirstHit(p.before.guest, Guest, "/").Some?
  {
    b in p.before.guest && b != OldRoot(p) && !Moves(b, p.newRoot)
  }

  ghost predicate Exposed(t: Table, first: nat, g: string, h: string) {
    exists c :: c in t.guest && c.guest == g && c.host == h && c.id >= first
  }

  ghost predicate Bound(t: Table, g: string) {
    exists c :: c in t.guest && SameLocation(c.guest, g)
  }

  /** The state of the lists after `k` turns, seen from the guest side. */
  ghost predicate AllExposed(p: Pivoting, k: nat, t: Table)
    requires FirstHit(p.before.guest, Guest, "/").Some? && k <= |p.before.guest|
  {
    forall g, h :: Wanted(p, k, g, h) ==> Exposed(t, p.before.nextId, g, h)
  }

  ghost predicate OnlyWanted(p: Pivoting, k: nat, t: Table)
    requires FirstHit(p.before.guest, Guest, "/").Some? && k <= |p.before.guest|
  {
    forall c :: c in t.guest && c.id >= p.before.nextId ==> Wanted(p, k, c.guest, c.host)
  }

  ghost predicate OldOnesMoved(p: Pivoting, k: nat, t: Table)
    requires FirstHit(p.before.guest, Guest, "/").Some? && k <= |p.before.guest|
  {
    forall c :: c in t.guest && c.id < p.before.nextId ==>
      && c in p.before.guest && c != OldRoot(p)
      && forall j :: 0 <= j < k && p.before.guest[j] == c ==> !Moves(c, p.newRoot)
  }

  ghost predicate StillBound(p: Pivoting, t: Table)
    requires FirstHit(p.before.guest, Guest, "/").Some?
  {
    forall b :: Stays(p, b) ==> Bound(t, b.guest)
  }

  lemma TidyLocation(g: string, h: string)
    requires Tidy(g) && Tidy(h)
    ensures SameLocation(g, h) <==> g == h
  {
  }

  lemma SuffixIsTidy(g: string, n: nat)
    requires Tidy(g) && 0 < n < |g| && g[n] == '/'
    ensures Tidy(g[n..]) && g[n..] != "/"
  {
    var r := g[n..];
    assert r[|r| - 1] == g[|g| - 1];
  }

  lemma AliasIsTidy(put: string, g: string)
    requires Tidy(put) && Tidy(g) && g != "/"
    ensures Tidy(put + g) && put + g != "/" && put + g != put
  {
    var r := put + g;
    assert r[|r| - 1] == g[|g| - 1];
  }

  lemma TargetIsTidy(p: Pivoting, b: Binding)
    requires Usable(p) && FirstHit(p.before.guest, Guest, "/").Some? && b in p.before.guest
    requires Target(p, b).Some?
    ensures Tidy(Target(p, b).value) && Target(p, b).value != "/"
    ensures p.put != Target(p, b)
  {
    if Moves(b, p.newRoot) {
      SuffixIsTidy(b.guest, |p.newRoot|);
      assert p.put.Some? ==> !Covers(p.put.value, b.guest[|p.newRoot|..]);
    } else {
      AliasIsTidy(p.put.value, b.guest);
    }
  }

  lemma AliasIsUnderPut(put: string, guest: string)
    requires Tidy(put) && put != "/" && Tidy(guest) && guest != "/"
    ensures Covers(put, put + guest)
  {
    assert Trim(put + guest) == put + guest;
  }

  /** No two bindings are exposed anew at the same location. */
  lemma TargetsDiffer(p: Pivoting, b: Binding, c: Binding)
    requires Usable(p) && FirstHit(p.before.guest, Guest, "/").Some?
    requires b in p.before.guest && c in p.before.guest && b != c
    requires Target(p, b).Some? && Target(p, c).Some?
    ensures Target(p, b) != Target(p, c)
  {
    var n := |p.newRoot|;
    var list := p.before.guest;
    if Target(p, b) == Target(p, c) {
      if Moves(b, p.newRoot) && Moves(c, p.newRoot) {
        assert b.guest == p.newRoot + b.guest[n..] && c.guest == p.newRoot + c.guest[n..];
        GuestIsKey(list, b, c);
      } else if Moves(b, p.newRoot) {
        AliasIsUnderPut(p.put.value, c.guest);
      } else if Moves(c, p.newRoot) {
        AliasIsUnderPut(p.put.value, b.guest);
      } else {
        var put := p.put.value;
        assert b.guest == (put + b.guest)[|put|..] && c.guest == (put + c.guest)[|put|..];
        GuestIsKey(list, b, c);
      }
    }
  }

  lemma WantedNext(p: Pivoting, k: nat, g: string, h: string)
    requires FirstHit(p.before.guest, Guest, "/").Some? && k < |p.before.guest|
    ensures var b := p.before.guest[k];
      Wanted(p, k + 1, g, h) <==> Wanted(p, k, g, h) || (Target(p, b) == Some(g) && b.host == h)
  {
  }

  /** Whatever was wanted before turn `k` is wanted at another location than that of turn `k`. */
  lemma WantedElsewhere(p: Pivoting, k: nat, g: string, h: string)
    requires Usable(p) && FirstHit(p.before.guest, Guest, "/").Some? && k < |p.before.guest|
    requires Target(p, p.before.guest[k]).Some? && Wanted(p, k, g, h)
    ensures Tidy(g) && g != Target(p, p.before.guest[k]).value
  {
    var b := p.before.guest[k];
    TargetIsTidy(p, b);
    if g != "/" && p.put != Some(g) {
      var j :| 0 <= j < k && Target(p, p.before.guest[j]) == Some(g) && p.before.guest[j].host == h;
      TargetIsTidy(p, p.before.guest[j]);
      assert GuestBefore(p.before.guest[j], b);
      TargetsDiffer(p, p.before.guest[j], b);
    }
  }

  lemma GainExposes(p: Pivoting, k: nat, t: Table, u: Table)
    requires FirstHit(p.before.guest, Guest, "/").Some? && k < |p.before.guest|
    requires Target(p, p.before.guest[k]).Some? && t.nextId >= p.before.nextId
    requires AllExposed(p, k, t) && OnlyWanted(p, k, t)
    requires Gains(t, u, Target(p, p.before.guest[k]).value, p.before.guest[k].host)
    requires forall g, h :: Wanted(p, k, g, h) ==> !SameLocation(g, Target(p, p.before.guest[k]).value)
    ensures AllExposed(p, k + 1, u) && OnlyWanted(p, k + 1, u)
  {
    var b := p.before.guest[k];
    var x := Target(p, b).value;
    forall g, h | Wanted(p, k + 1, g, h) ensures Exposed(u, p.before.nextId, g, h) {
      WantedNext(p, k, g, h);
      if Wanted(p, k, g, h) {
        assert Exposed(t, p.before.nextId, g, h);
        var c :| c in t.guest && c.guest == g && c.host == h && c.id >= p.before.nextId;
        assert c in u.guest;
      } else {
        assert Binding(t.nextId, b.host, x) in u.guest;
      }
    }
    forall c | c in u.guest && c.id >= p.before.nextId ensures Wanted(p, k + 1, c.guest, c.host) {
      WantedNext(p, k, c.guest, c.host);
    }
  }

  lemma GainKeepsBound(p: Pivoting, t: Table, u: Table, g: string, h: string)
    requires FirstHit(p.before.guest, Guest, "/").Some? && StillBound(p, t) && Gains(t, u, g, h)
    ensures StillBound(p, u)
  {
    forall c | Stays(p, c) ensures Bound(u, c.guest) {
      var d :| d in t.guest && SameLocation(d.guest, c.guest);
      assert Binding(t.nextId, h, g) in u.guest;
      if SameLocation(d.guest, g) {
        assert SameLocation(g, c.guest);
      } else {
        assert d in u.guest;
      }
    }
  }

  lemma GainKeepsOld(p: Pivoting, k: nat, t: Table, u: Table, g: string, h: string)
    requires FirstHit(p.before.guest, Guest, "/").Some? && k < |p.before.guest|
    requires OldOnesMoved(p, k, t) && Gains(t, u, g, h) && t.nextId >= p.before.nextId
    ensures OldOnesMoved(p, k, u)
    ensures !Moves(p.before.guest[k], p.newRoot) ==> OldOnesMoved(p, k + 1, u)
  {
  }

  lemma LossKeepsOld(p: Pivoting, k: nat, t: Table, u: Table)
    requires FirstHit(p.before.guest, Guest, "/").Some? && k < |p.before.guest|
    requires OldOnesMoved(p, k, t) && Loses(t, u, p.before.guest[k].id)
    ensures OldOnesMoved(p, k + 1, u)
  {
  }

  lemma LossKeepsExposed(p: Pivoting, k: nat, t: Table, u: Table, id: nat)
    requires FirstHit(p.before.guest, Guest, "/").Some? && k <= |p.before.guest|
    requires AllExposed(p, k, t) && OnlyWanted(p, k, t) && Loses(t, u, id) && id < p.before.nextId
    ensures AllExposed(p, k, u) && OnlyWanted(p, k, u)
  {
    forall g, h | Wanted(p, k, g, h) ensures Exposed(u, p.before.nextId, g, h) {
      assert Exposed(t, p.before.nextId, g, h);
      var c :| c in t.guest && c.guest == g && c.host == h && c.id >= p.before.nextId;
      assert c in u.guest;
    }
  }

  lemma LossKeepsBound(p: Pivoting, t: Table, u: Table, b: Binding)
    requires FirstHit(p.before.guest, Guest, "/").Some? && Pairwise(p.before.guest, GuestBefore)
    requires StillBound(p, t) && Loses(t, u, b.id) && b in p.before.guest && Moves(b, p.newRoot)
    requires forall c :: c in t.guest && c.id == b.id ==> c in p.before.guest
    ensures StillBound(p, u)
  {
    forall c | Stays(p, c) ensures Bound(u, c.guest) {
      var d :| d in t.guest && SameLocation(d.guest, c.guest);
      if d.id == b.id {
        GuestIsKey(p.before.guest, d, b);
        GuestIsKey(p.before.guest, d, c);
      }
      assert d in u.guest;
    }
  }

  ghost predicate Progress(p: Pivoting, k: nat, t: Table)
    requires FirstHit(p.before.guest, Guest, "/").Some? && k <= |p.before.guest|
  {
    && WellFormed(t) && t.nextId >= p.before.nextId
    && AllExposed(p, k, t) && OnlyWanted(p, k, t) && OldOnesMoved(p, k, t) && StillBound(p, t)
  }

  lemma StepIdle(p: Pivoting, k: nat, t: Table)
    requires Usable(p) && FirstHit(p.before.guest, Guest, "/").Some? && k < |p.before.guest|
    requires Target(p, p.before.guest[k]).None? && Progress(p, k, t)
    requires OldRoot(p).guest == "/" && OldRoot(p) in p.before.guest
    ensures Progress(p, k + 1, t)
  {
    hide Tidy, SitsUnder, Exposed, Wanted, Bound, Texts, Covers;
    forall g, h ensures Wanted(p, k + 1, g, h) <==> Wanted(p, k, g, h) { WantedNext(p, k, g, h); }
    var b := p.before.guest[k];
    if b.id == OldRoot(p).id { GuestIsKey(p.before.guest, b, OldRoot(p)); }
  }

  lemma TargetIsElsewhere(p: Pivoting, k: nat)
    requires Usable(p) && FirstHit(p.before.guest, Guest, "/").Some? && k < |p.before.guest|
    requires Target(p, p.before.guest[k]).Some?
    ensures forall g, h :: Wanted(p, k, g, h) ==> !SameLocation(g, Target(p, p.before.guest[k]).value)
  {
    TargetIsTidy(p, p.before.guest[k]);
    forall g, h | Wanted(p, k, g, h) ensures !SameLocation(g, Target(p, p.before.guest[k]).value) {
      WantedElsewhere(p, k, g, h);
      TidyLocation(g, Target(p, p.before.guest[k]).value);
    }
  }

  /** One turn that inserts a target keeps all but the turn count of the old bindings. */
  lemma StepGain(p: Pivoting, k: nat, t: Table, u: Table)
    requires Usable(p) && FirstHit(p.before.guest, Guest, "/").Some? && k < |p.before.guest|
    requires Target(p, p.before.guest[k]).Some? && Progress(p, k, t)
    requires Gains(t, u, Target(p, p.before.guest[k]).value, p.before.guest[k].host)
    ensures AllExposed(p, k + 1, u) && OnlyWanted(p, k + 1, u) && OldOnesMoved(p, k, u) && StillBound(p, u)
    ensures !Moves(p.before.guest[k], p.newRoot) ==> OldOnesMoved(p, k + 1, u)
  {
    TargetIsElsewhere(p, k);
    GainExposes(p, k, t, u);
    GainKeepsBound(p, t, u, Target(p, p.before.guest[k]).value, p.before.guest[k].host);
    GainKeepsOld(p, k, t, u, Target(p, p.before.guest[k]).value, p.before.guest[k].host);
  }

  /** The removal of a binding that moved, after its insertion at its new place. */
  lemma StepLoss(p: Pivoting, k: nat, u: Table, v: Table)
    requires FirstHit(p.before.guest, Guest, "/").Some? && k < |p.before.guest|
    requires Pairwise(p.before.guest, GuestBefore) && Moves(p.before.guest[k], p.newRoot)
    requires p.before.guest[k].id < p.before.nextId
    requires AllExposed(p, k + 1, u) && OnlyWanted(p, k + 1, u) && OldOnesMoved(p, k, u) && StillBound(p, u)
    requires Loses(u, v, p.before.guest[k].id)
    ensures AllExposed(p, k + 1, v) && OnlyWanted(p, k + 1, v) && OldOnesMoved(p, k + 1, v) && StillBound(p, v)
  {
    LossKeepsExposed(p, k + 1, u, v, p.before.guest[k].id);
    LossKeepsBound(p, u, v, p.before.guest[k]);
    LossKeepsOld(p, k, u, v);
  }

  /** The guest bindings of `t` are those right before the loop. */
  ghost predicate StartsFrom(p: Pivoting, t: Table)
    requires FirstHit(p.before.guest, Guest, "/").Some?
  {
    forall c :: c in t.guest <==>
      || c == Binding(p.before.nextId, p.newRootHost, "/")
      || (p.put.Some? && c == Binding(p.before.nextId + 1, OldRoot(p).host, p.put.value))
      || (c in p.before.guest && c != OldRoot(p) && (p.put.Some? ==> !SameLocation(c.guest, p.put.value)))
  }

  lemma BaseMembers(p: Pivoting)
    requires Usable(p) && FirstHit(p.before.guest, Guest, "/").Some?
    requires OldRoot(p) in p.before.guest && OldRoot(p).guest == "/" && AbsText(OldRoot(p).host)
    ensures StartsFrom(p, PivotBase(p))
  {
    var root := OldRoot(p);
    RemoveKeeps(p.before, root.id);
    var t0 := RemoveFromAll(p.before, root.id);
    Insort3Keeps(t0, p.newRootHost, "/");
    var t1 := Insort3(t0, p.newRootHost, "/");
    forall c | c in p.before.guest ensures c.id == root.id <==> c == root {
      if c.id == root.id { GuestIsKey(p.before.guest, c, root); }
    }
    forall c | c in t0.guest ensures !SameLocation(c.guest, "/") {
      if SameLocation(c.guest, "/") { GuestIsKey(p.before.guest, c, root); }
    }
    if p.put.Some? {
      TidyLocation("/", p.put.value);
      Insort3Keeps(t1, root.host, p.put.value);
    }
  }

  lemma BaseExposes(p: Pivoting, t: Table)
    requires FirstHit(p.before.guest, Guest, "/").Some? && StartsFrom(p, t)
    requires forall b :: b in p.before.guest ==> b.id < p.before.nextId
    ensures AllExposed(p, 0, t) && OnlyWanted(p, 0, t) && OldOnesMoved(p, 0, t)
  {
    var first := p.before.nextId;
    forall g, h | Wanted(p, 0, g, h) ensures Exposed(t, first, g, h) {
      if g == "/" && h == p.newRootHost { assert Binding(first, h, "/") in t.guest; }
      else { assert Binding(first + 1, h, g) in t.guest; }
    }
  }

  lemma BaseBinds(p: Pivoting, t: Table)
    requires FirstHit(p.before.guest, Guest, "/").Some? && StartsFrom(p, t)
    ensures StillBound(p, t)
  {
    forall c | Stays(p, c) ensures Bound(t, c.guest) {
      if p.put.Some? && SameLocation(c.guest, p.put.value) {
        assert Binding(p.before.nextId + 1, OldRoot(p).host, p.put.value) in t.guest;
      } else {
        assert c in t.guest;
      }
    }
  }

  lemma BaseProgress(p: Pivoting)
    requires Usable(p)
    ensures FirstHit(p.before.guest, Guest, "/").Some? && Progress(p, 0, PivotBase(p))
    ensures OldRoot(p) in p.before.guest && OldRoot(p).guest == "/"
  {
    PivotBaseKeeps(p);
    BaseMembers(p);
    BaseExposes(p, PivotBase(p));
    BaseBinds(p, PivotBase(p));
  }

  /** One whole turn of the loop. */
  lemma OneTurn(p: Pivoting, k: nat, t: Table)
    requires Usable(p) && FirstHit(p.before.guest, Guest, "/").Some? && k < |p.before.guest|
    requires Progress(p, k, t) && OldRoot(p) in p.before.guest && OldRoot(p).guest == "/"
    ensures Progress(p, k + 1, PivotOne(t, p.before.guest[k], OldRoot(p).id, p.newRoot, p.put))
  {
    hide Insort3, RemoveFromAll, Tidy, SitsUnder, Covers, Wanted, Gains, Loses, Exposed, Bound, Stays, AllExposed, OnlyWanted, StillBound;
    var b := p.before.guest[k];
    assert b in p.before.guest;
    if Target(p, b).None? {
      StepIdle(p, k, t);
    } else {
      var x := Target(p, b).value;
      TargetIsTidy(p, b);
      var u := Insort3(t, b.host, x);
      InsertGains(t, b.host, x);
      StepGain(p, k, t, u);
      if Moves(b, p.newRoot) {
        forall c | c in u.guest && c.id == b.id ensures c.guest != "/" {
          assert c in t.guest;
          GuestIsKey(p.before.guest, c, b);
        }
        RemoveLoses(u, b.id);
        StepLoss(p, k, u, RemoveFromAll(u, b.id));
      }
    }
  }

  lemma {:induction false} LoopProgress(p: Pivoting, k: nat)
    requires Usable(p) && FirstHit(p.before.guest, Guest, "/").Some? && k <= |p.before.guest|
    requires OldRoot(p) in p.before.guest && OldRoot(p).guest == "/"
    ensures Progress(p, k, PivotUpTo(p, k))
  {
    hide Usable, Progress, PivotOne, PivotBase;
    if k == 0 {
      BaseProgress(p);
    } else {
      var t := PivotUpTo(p, k - 1);
      LoopProgress(p, k - 1);
      OneTurn(p, k - 1, t);
      assert PivotUpTo(p, k) == PivotOne(t, p.before.guest[k - 1], OldRoot(p).id, p.newRoot, p.put);
    }
  }

  // ---------------------------------------------------------------------
  // What pivot_root achieves
  // ---------------------------------------------------------------------

  /** A lookup of `g` in the guest list finds a binding to exactly `g`, with the host path `h`. */
  ghost predicate MapsTo(t: Table, g: string, h: string) {
    && FirstHit(t.guest, Guest, g).Some?
    && FirstHit(t.guest, Guest, g).value.guest == g && FirstHit(t.guest, Guest, g).value.host == h
  }

  lemma ExposedMapsTo(t: Table, first: nat, g: string, h: string)
    requires Consistent(t) && Exposed(t, first, g, h)
    ensures MapsTo(t, g, h)
  {
    var c :| c in t.guest && c.guest == g && c.host == h && c.id >= first;
    ExactLookup(t.guest, c);
  }

  /**
   After a pivot whose put_old is usable: "/" is the new root, put_old is the old root, and each
   binding that the pivot exposes anew is found at its new guest path with its host path, although
   the insertions replace entries of the snapshot that the loop walks.
   */
  lemma PivotExposes(p: Pivoting)
    requires Usable(p)
    ensures FirstHit(p.before.guest, Guest, "/").Some?
    ensures var r := PivotUpTo(p, |p.before.guest|);
      && MapsTo(r, "/", p.newRootHost)
      && (p.put.Some? ==> MapsTo(r, p.put.value, OldRoot(p).host))
      && forall b :: b in p.before.guest && Target(p, b).Some? ==> MapsTo(r, Target(p, b).value, b.host)
  {
    BaseProgress(p);
    LoopProgress(p, |p.before.guest|);
    EveryTargetMaps(p, PivotUpTo(p, |p.before.guest|));
  }

  lemma WantedMaps(p: Pivoting, r: Table, g: string, h: string)
    requires FirstHit(p.before.guest, Guest, "/").Some? && Consistent(r)
    requires AllExposed(p, |p.before.guest|, r) && Wanted(p, |p.before.guest|, g, h)
    ensures MapsTo(r, g, h)
  {
    assert Exposed(r, p.before.nextId, g, h);
    ExposedMapsTo(r, p.before.nextId, g, h);
  }

  lemma EveryTargetMaps(p: Pivoting, r: Table)
    requires FirstHit(p.before.guest, Guest, "/").Some? && Consistent(r)
    requires AllExposed(p, |p.before.guest|, r)
    ensures MapsTo(r, "/", p.newRootHost)
    ensures p.put.Some? ==> MapsTo(r, p.put.value, OldRoot(p).host)
    ensures forall b :: b in p.before.guest && Target(p, b).Some? ==> MapsTo(r, Target(p, b).value, b.host)
  {
    WantedMaps(p, r, "/", p.newRootHost);
    if p.put.Some? { WantedMaps(p, r, p.put.value, OldRoot(p).host); }
    forall b | b in p.before.guest && Target(p, b).Some? ensures MapsTo(r, Target(p, b).value, b.host) {
      var j :| 0 <= j < |p.before.guest| && p.before.guest[j] == b;
      WantedMaps(p, r, Target(p, b).value, b.host);
    }
  }

  /** A binding strictly under the new root is found at exactly its rebased guest path. */
  lemma PivotRebases(p: Pivoting, b: Binding)
    requires Usable(p) && b in p.before.guest && Moves(b, p.newRoot)
    ensures FirstHit(p.before.guest, Guest, "/").Some?
    ensures MapsTo(PivotUpTo(p, |p.before.guest|), b.guest[|p.newRoot|..], b.host)
  {
    PivotExposes(p);
    BaseProgress(p);
    if b.id == OldRoot(p).id { GuestIsKey(p.before.guest, b, OldRoot(p)); }
    assert Target(p, b) == Some(b.guest[|p.newRoot|..]);
  }

  /** Nothing else appears, and no location that stayed outside of the new root is lost. */
  lemma PivotAddsNothingElse(p: Pivoting)
    requires Usable(p)
    ensures FirstHit(p.before.guest, Guest, "/").Some?
    ensures var r := PivotUpTo(p, |p.before.guest|);
      && (forall c :: c in r.guest ==>
            || Wanted(p, |p.before.guest|, c.guest, c.host)
            || (c in p.before.guest && c != OldRoot(p) && !Moves(c, p.newRoot)))
      && (forall b :: Stays(p, b) ==> Bound(r, b.guest))
  {
    BaseProgress(p);
    LoopProgress(p, |p.before.guest|);
    OldOnesStay(p, PivotUpTo(p, |p.before.guest|));
  }

  lemma OldOnesStay(p: Pivoting, r: Table)
    requires FirstHit(p.before.guest, Guest, "/").Some? && OldOnesMoved(p, |p.before.guest|, r)
    ensures forall c :: c in r.guest && c.id < p.before.nextId
              ==> c in p.before.guest && c != OldRoot(p) && !Moves(c, p.newRoot)
  {
    forall c | c in r.guest && c.id < p.before.nextId
      ensures c in p.before.guest && c != OldRoot(p) && !Moves(c, p.newRoot)
    {
      var j :| 0 <= j < |p.before.guest| && p.before.guest[j] == c;
    }
  }

  /**
   The alias "put_old + guest path" is the location of that guest path below put_old exactly when
   put_old carries no final "/" or "/."; otherwise its text holds "//" or "/./" and no canonical
   path ever reaches it.
   */
  lemma AliasReachesItsLocation(put: seq<string>, finality: Finality, guest: seq<string>)
    requires Canonical(put) && Canonical(guest) && put != [] && guest != [] && finality != NotFinal
    ensures SameLocation(Finish(put, finality) + Render(guest), Render(put + guest)) <==> finality == FinalNormal
  {
    hide Flat, Trim, Canonical;
    NamesOf(put);
    NamesOf(guest);
    NamesOf(put + guest);
    FlatAppend(put, guest);
    FlatShape(put);
    FlatShape(guest);
    FlatShape(put + guest);
    var middle := if finality == FinalSlash then "/" else if finality == FinalDot then "/." else "";
    assert Finish(put, finality) == Flat(put) + middle;
    AliasText(Flat(put), middle, Flat(guest));
  }

  lemma NamesOf(cs: seq<string>)
    ensures Canonical(cs) ==> Names(cs)
  {
    if Canonical(cs) {
      assert forall i :: 0 <= i < |cs| ==> IsProper(cs[i]);
    }
  }

  lemma AliasText(put: string, middle: string, guest: string)
    requires guest != "" && guest[|guest| - 1] != '/'
    ensures SameLocation((put + middle) + guest, put + guest) <==> middle == ""
  {
    var alias, below := (put + middle) + guest, put + guest;
    assert alias[|alias| - 1] == guest[|guest| - 1] == below[|below| - 1];
    assert |alias| == |below| + |middle|;
    if middle == "" {
      assert put + middle == put;
    }
  }

  /**
   With put_old the same directory as the new root the previous root is exposed nowhere, as the
   comment of emulate_pivot_root says, exactly when put_old does not end in "/.": the
   pivot_root(".", ".") that it names installs a binding to "/.".
   */
  lemma SameDirectoryPutOld(root: seq<string>, finality: Finality)
    requires Canonical(root) && finality != NotFinal
    ensures PutOldAfter(Render(root), Finish(root, finality)).None? <==> finality != FinalDot
    ensures finality == FinalDot ==> PutOldAfter(Render(root), Finish(root, finality)) == Some("/.")
  {
    FlatShape(root);
    var newRoot, putOld := Render(root), Finish(root, finality);
    if root == [] {
      assert finality == FinalDot ==> putOld == "/.";
    } else {
      var n := |newRoot|;
      assert putOld == newRoot + (if finality == FinalDot then "/." else if finality == FinalSlash then "/" else "");
      assert finality == FinalDot ==> putOld[n..] == "/.";
      assert finality == FinalSlash ==> putOld[n..] == "/";
    }
  }

  // ---------------------------------------------------------------------
  // Runs
  // ---------------------------------------------------------------------

  datatype Op =
    | OpMount(host: string, guest: string)
    | OpUmount(guest: string)
    | OpPivot(newRootHost: string, newRoot: string, putOld: string)

  predicate Resolved(op: Op) {
    match op
    case OpMount(host, guest) => AbsText(host) && AbsText(guest)
    case OpUmount(guest) => AbsText(guest)
    case OpPivot(newRootHost, newRoot, putOld) => AbsText(newRootHost) && AbsText(newRoot) && AbsText(putOld)
  }

  function Step(t: Table, op: Op): Table
    requires Resolved(op)
  {
    match op
    case OpMount(host, guest) => Mount(t, host, guest)
    case OpUmount(guest) => Umount(t, guest)
    case OpPivot(newRootHost, newRoot, putOld) => PivotRoot(t, newRootHost, newRoot, putOld)
  }

  function Run(t: Table, ops: seq<Op>): Table
    requires forall i :: 0 <= i < |ops| ==> Resolved(ops[i])
  {
    if ops == [] then t else Step(Run(t, ops[..|ops| - 1]), ops[|ops| - 1])
  }

  /** Any turn of the pivot loop, whatever put_old is, keeps the lists well formed. */
  lemma PivotOneKeeps(t: Table, b: Binding, rootId: nat, newRoot: string, put: Option<string>)
    requires WellFormed(t) && AbsText(b.host) && AbsText(b.guest) && b.id < t.nextId
    requires forall c :: c in t.guest && c.id == b.id ==> c == b
    requires put.Some? ==> AbsText(put.value)
    ensures WellFormed(PivotOne(t, b, rootId, newRoot, put))
    ensures PivotOne(t, b, rootId, newRoot, put).nextId >= t.nextId
    ensures forall c :: c in PivotOne(t, b, rootId, newRoot, put).guest ==> c in t.guest || c.id >= t.nextId
  {
    if b.id == rootId || b.guest == "/" {
    } else if Moves(b, newRoot) {
      InsertGains(t, b.host, b.guest[|newRoot|..]);
      RemoveLoses(Insort3(t, b.host, b.guest[|newRoot|..]), b.id);
    } else if put.Some? && !SitsUnder(b, put.value) && |put.value + b.guest| < PATH_MAX {
      InsertGains(t, b.host, put.value + b.guest);
    }
  }

  lemma {:induction false} PivotLoopKeeps(p: Pivoting, k: nat)
    requires WellFormed(p.before) && AbsText(p.newRootHost) && (p.put.Some? ==> AbsText(p.put.value))
    requires FirstHit(p.before.guest, Guest, "/").Some? && k <= |p.before.guest|
    ensures WellFormed(PivotUpTo(p, k)) && PivotUpTo(p, k).nextId >= p.before.nextId
    ensures forall c :: c in PivotUpTo(p, k).guest ==> c in p.before.guest || c.id >= p.before.nextId
  {
    hide WellFormed, Insort3, RemoveFromAll, PivotOne, PivotBase;
    if k == 0 {
      PivotBaseKeeps(p);
      PivotBaseAdds(p);
    } else {
      PivotLoopKeeps(p, k - 1);
      ConsistentOf(p.before);
      PivotTurnKeeps(p, k - 1, PivotUpTo(p, k - 1));
    }
  }

  lemma PivotTurnKeeps(p: Pivoting, k: nat, t: Table)
    requires FirstHit(p.before.guest, Guest, "/").Some? && k < |p.before.guest|
    requires Consistent(p.before) && (p.put.Some? ==> AbsText(p.put.value))
    requires WellFormed(t) && t.nextId >= p.before.nextId
    requires forall c :: c in t.guest ==> c in p.before.guest || c.id >= p.before.nextId
    ensures var u := PivotOne(t, p.before.guest[k], OldRoot(p).id, p.newRoot, p.put);
      && WellFormed(u) && u.nextId >= p.before.nextId
      && forall c :: c in u.guest ==> c in p.before.guest || c.id >= p.before.nextId
  {
    var b := p.before.guest[k];
    assert b in p.before.guest;
    forall c | c in t.guest && c.id == b.id ensures c == b { GuestIsKey(p.before.guest, c, b); }
    PivotOneKeeps(t, b, OldRoot(p).id, p.newRoot, p.put);
  }

  lemma PivotBaseAdds(p: Pivoting)
    requires WellFormed(p.before) && AbsText(p.newRootHost) && (p.put.Some? ==> AbsText(p.put.value))
    requires FirstHit(p.before.guest, Guest, "/").Some? && AbsText(OldRoot(p).host)
    ensures forall c :: c in PivotBase(p).guest ==> c in p.before.guest || c.id >= p.before.nextId
  {
    var t0 := RemoveFromAll(p.before, OldRoot(p).id);
    RemoveKeeps(p.before, OldRoot(p).id);
    Insort3Keeps(t0, p.newRootHost, "/");
    if p.put.Some? { Insort3Keeps(Insort3(t0, p.newRootHost, "/"), OldRoot(p).host, p.put.value); }
  }

  lemma StepKeeps(t: Table, op: Op)
    requires WellFormed(t) && Resolved(op)
    ensures WellFormed(Step(t, op))
  {
    match op
    case OpMount(host, guest) => Insort3Keeps(t, host, guest);
    case OpUmount(guest) => UmountKeeps(t, guest);
    case OpPivot(newRootHost, newRoot, putOld) =>
      PutOldIsAbsolute(newRoot, putOld);
      var p := Pivoting(t, newRootHost, newRoot, PutOldAfter(newRoot, putOld));
      RootAlwaysHit(t, "/");
      PivotLoopKeeps(p, |t.guest|);
  }

  /**
   Over any run of mount, umount and pivot_root both lists hold the same bindings, both stay ordered,
   no guest location is bound twice, and the last guest binding stays the one for "/".
   */
  lemma {:induction false} RunKeeps(t: Table, ops: seq<Op>)
    requires WellFormed(t) && forall i :: 0 <= i < |ops| ==> Resolved(ops[i])
    ensures WellFormed(Run(t, ops))
  {
    if ops != [] {
      RunKeeps(t, ops[..|ops| - 1]);
      StepKeeps(Run(t, ops[..|ops| - 1]), ops[|ops| - 1]);
    }
  }

  // ---------------------------------------------------------------------
  // initialize_bindings
  // ---------------------------------------------------------------------

  /**
   The lists once the pending bindings from `k` on are initialized, the last one first; `resolved`
   holds the canonical guest path of each, or None where its canonicalization failed.
   */
  function Initialized(pending: seq<Binding>, resolved: seq<Option<string>>, k: nat, nextId: nat): Table
    requires k <= |pending| == |resolved|
    decreases |pending| - k
  {
    if k == |pending| then Table([], [], nextId)
    else
      var t := Initialized(pending, resolved, k + 1, nextId);
      if SameLocation(pending[k].guest, "/") then Insort2(t, pending[k])
      else match resolved[k]
        case Some(guest) => Insort2(t, pending[k].(guest := guest))
        case None => t
  }

  /** The binding to "/" is the last pending one, as initialize_bindings asserts. */
  predicate Pending(pending: seq<Binding>, resolved: seq<Option<string>>, nextId: nat) {
    && |pending| == |resolved| && pending != [] && pending[|pending| - 1].guest == "/"
    && (forall i :: 0 <= i < |pending| ==>
          AbsText(pending[i].host) && AbsText(pending[i].guest) && pending[i].id < nextId
          && (resolved[i].Some? ==> AbsText(resolved[i].value)))
    && forall i, j :: 0 <= i < j < |pending| ==> pending[i].id != pending[j].id
  }

  lemma {:induction false} InitializedIsConsistent(pending: seq<Binding>, resolved: seq<Option<string>>, k: nat, nextId: nat)
    requires Pending(pending, resolved, nextId) && k <= |pending|
    ensures var t := Initialized(pending, resolved, k, nextId);
      && Consistent(t) && t.nextId == nextId && (k < |pending| ==> HasRoot(t))
      && forall c :: c in t.guest ==> exists j :: k <= j < |pending| && pending[j].id == c.id
    decreases |pending| - k
  {
    if k < |pending| {
      InitializedIsConsistent(pending, resolved, k + 1, nextId);
      var t := Initialized(pending, resolved, k + 1, nextId);
      var b := pending[k];
      forall c | c in t.guest ensures c.id != b.id {
        var j :| k + 1 <= j < |pending| && pending[j].id == c.id;
      }
      if SameLocation(b.guest, "/") {
        RootCoversAll(b.guest);
        InitializedAdds(t, b, pending, k);
      } else if resolved[k].Some? {
        InitializedAdds(t, b.(guest := resolved[k].value), pending, k);
      }
    }
  }

  lemma InitializedAdds(t: Table, b: Binding, pending: seq<Binding>, k: nat)
    requires Consistent(t) && AbsText(b.host) && AbsText(b.guest) && b.id < t.nextId
    requires k < |pending| && pending[k].id == b.id
    requires forall c :: c in t.guest ==> c.id != b.id
    requires forall c :: c in t.guest ==> exists j :: k + 1 <= j < |pending| && pending[j].id == c.id
    ensures Consistent(Insort2(t, b)) && Insort2(t, b).nextId == t.nextId
    ensures HasRoot(t) || b.guest == "/" ==> HasRoot(Insort2(t, b))
    ensures forall c :: c in Insort2(t, b).guest ==> exists j :: k <= j < |pending| && pending[j].id == c.id
  {
    Insort2Keeps(t, b);
    forall c | c in Insort2(t, b).guest ensures exists j :: k <= j < |pending| && pending[j].id == c.id {
      if c == b {
        assert pending[k].id == c.id;
      } else {
        var j :| k + 1 <= j < |pending| && pending[j].id == c.id;
      }
    }
  }

  /** From initialize_bindings on, every run finds well-formed lists. */
  lemma RunFromInitialization(pending: seq<Binding>, resolved: seq<Option<string>>, nextId: nat, ops: seq<Op>)
    requires Pending(pending, resolved, nextId) && forall i :: 0 <= i < |ops| ==> Resolved(ops[i])
    ensures WellFormed(Run(Initialized(pending, resolved, 0, nextId), ops))
  {
    InitializedIsConsistent(pending, resolved, 0, nextId);
    RunKeeps(Initialized(pending, resolved, 0, nextId), ops);
  }
}
